/** One row of the audit log and the canonical string that its hash covers.
    The hash function and the timestamp rendering are parameters. */
module AuditRow {
  import opened Wrappers
  import opened Decimals

  // hash: SHA-256 as a hex digest; iso: the ISO rendering of a timestamp.
  datatype Env = Env(hash: string -> string, iso: int -> string)

  datatype Row = Row(
    seqNo: nat, ts: int, eventType: string, agentId: Option<string>,
    payload: string, prevHash: string, rowHash: string)

  const GENESIS_TEXT := "LEGIONFORGE_AUDIT_LOG_GENESIS"

  const PENDING := "PENDING"

  // Facts about hexdigest() and isoformat(): neither emits '|', a digest is never the
  // placeholder of an unfinished row, and different instants are rendered differently.
  ghost predicate EnvOk(env: Env) {
    && (forall s :: '|' !in env.hash(s) && env.hash(s) != PENDING)
    && (forall t :: '|' !in env.iso(t))
    && (forall t, u :: env.iso(t) == env.iso(u) ==> t == u)
  }

  // No two different strings of this finite set share a hash.
  ghost predicate CollisionFree(env: Env, texts: set<string>) {
    forall x, y :: x in texts && y in texts && env.hash(x) == env.hash(y) ==> x == y
  }

  function AgentText(agentId: Option<string>): string {
    match agentId case None => "" case Some(a) => a
  }

  function Piped(a: string, b: string): string {
    a + "|" + b
  }

  // The part of the canonical string between the timestamp and the previous hash.
  function Middle(r: Row): string {
    Piped(r.eventType, Piped(AgentText(r.agentId), r.payload))
  }

  // seq|ts|event_type|agent_id|payload|prev_hash
  function Image(env: Env, r: Row): string {
    Piped(Decimal(r.seqNo), Piped(env.iso(r.ts), Piped(Middle(r), r.prevHash)))
  }

  function RowHash(env: Env, r: Row): string {
    env.hash(Image(env, r))
  }

  function Genesis(env: Env): string {
    env.hash(GENESIS_TEXT)
  }

  ghost function Images(env: Env, rows: seq<Row>): set<string> {
    set r | r in rows :: Image(env, r)
  }

  // A row whose free-text columns cannot be confused with the separators.
  predicate Clean(r: Row) {
    '|' !in r.eventType && '|' !in AgentText(r.agentId)
  }

  // The hashed content of two rows is the same; a missing agent and an empty one are not told apart.
  predicate SameContent(r: Row, s: Row) {
    && r.seqNo == s.seqNo && r.ts == s.ts && r.eventType == s.eventType
    && AgentText(r.agentId) == AgentText(s.agentId)
    && r.payload == s.payload && r.prevHash == s.prevHash
  }

  /** The canonical string, column by column; no agent counts as an empty one. */
  lemma CanonicalForm(env: Env, r: Row)
    ensures var agent := if r.agentId.Some? then r.agentId.value else "";
      Image(env, r) == Decimal(r.seqNo) + "|" + env.iso(r.ts) + "|" + r.eventType + "|" + agent + "|" + r.payload
                       + "|" + r.prevHash
  {
    var agent := if r.agentId.Some? then r.agentId.value else "";
    assert Middle(r) == r.eventType + "|" + agent + "|" + r.payload;
  }

  // A separator cannot lie inside a stretch that has none.
  lemma PipeOutside(s: string, i: nat, lo: nat, hi: nat)
    requires i < |s| && s[i] == '|' && lo <= hi <= |s| && '|' !in s[lo..hi]
    ensures i < lo || hi <= i
  {
    assert forall k :: lo <= k < hi ==> s[lo..hi][k - lo] == s[k];
  }

  lemma PipedParts(a: string, b: string)
    ensures Piped(a, b)[..|a|] == a && Piped(a, b)[|a|] == '|' && Piped(a, b)[|a| + 1..] == b
  {
  }

  // A string splits in one way at its first separator ...
  lemma FirstPipe(a: string, x: string, b: string, y: string)
    requires Piped(a, x) == Piped(b, y)
    requires '|' !in a && '|' !in b
    ensures a == b && x == y
  {
    PipedParts(a, x);
    PipedParts(b, y);
    PipeOutside(Piped(a, x), |b|, 0, |a|);
    PipeOutside(Piped(a, x), |a|, 0, |b|);
  }

  // ... and in one way at its last ...
  lemma LastPipe(a: string, x: string, b: string, y: string)
    requires Piped(a, x) == Piped(b, y)
    requires '|' !in x && '|' !in y
    ensures a == b && x == y
  {
    var s := Piped(a, x);
    PipedParts(a, x);
    PipedParts(b, y);
    PipeOutside(s, |b|, |a| + 1, |s|);
    PipeOutside(s, |a|, |b| + 1, |s|);
  }

  // ... and, if it has a single separator, in one way altogether.
  lemma OnlyPipe(a: string, x: string, b: string, y: string)
    requires Piped(a, x) == Piped(b, y)
    requires '|' !in a && '|' !in x
    ensures a == b && x == y
  {
    var s := Piped(a, x);
    PipedParts(a, x);
    PipedParts(b, y);
    PipeOutside(s, |b|, 0, |a|);
    PipeOutside(s, |b|, |a| + 1, |s|);
  }

  lemma SamePayloadTail(a: string, b: string, x: string)
    requires Piped(a, x) == Piped(b, x)
    ensures a == b
  {
    PipedParts(a, x);
    PipedParts(b, x);
    assert |a| == |b|;
  }

  lemma MiddleRegrouped(r: Row)
    ensures Middle(r) == Piped(Piped(r.eventType, AgentText(r.agentId)), r.payload)
  {
  }

  // The sequence number can always be read back from the canonical string.
  lemma ImageSeq(env: Env, r: Row, s: Row)
    requires Image(env, r) == Image(env, s)
    ensures r.seqNo == s.seqNo
    ensures Piped(env.iso(r.ts), Piped(Middle(r), r.prevHash)) == Piped(env.iso(s.ts), Piped(Middle(s), s.prevHash))
  {
    FirstPipe(Decimal(r.seqNo), Piped(env.iso(r.ts), Piped(Middle(r), r.prevHash)),
              Decimal(s.seqNo), Piped(env.iso(s.ts), Piped(Middle(s), s.prevHash)));
    DecimalInjective(r.seqNo, s.seqNo);
  }

  // So can the timestamp and the previous hash, when that is a hash at all.
  lemma ImageEnds(env: Env, r: Row, s: Row)
    requires EnvOk(env) && Image(env, r) == Image(env, s)
    requires '|' !in r.prevHash && '|' !in s.prevHash
    ensures r.seqNo == s.seqNo && r.ts == s.ts && r.prevHash == s.prevHash && Middle(r) == Middle(s)
  {
    ImageSeq(env, r, s);
    FirstPipe(env.iso(r.ts), Piped(Middle(r), r.prevHash), env.iso(s.ts), Piped(Middle(s), s.prevHash));
    LastPipe(Middle(r), r.prevHash, Middle(s), s.prevHash);
  }

  /** Unique decoding: among rows whose event type and agent id hold no '|', the canonical
      string determines the whole content. */
  lemma CanonicalDecodes(env: Env, r: Row, s: Row)
    requires EnvOk(env) && Clean(r) && Clean(s)
    requires '|' !in r.prevHash && '|' !in s.prevHash
    ensures Image(env, r) == Image(env, s) <==> SameContent(r, s)
  {
    if Image(env, r) == Image(env, s) {
      ImageEnds(env, r, s);
      FirstPipe(r.eventType, Piped(AgentText(r.agentId), r.payload),
                s.eventType, Piped(AgentText(s.agentId), s.payload));
      FirstPipe(AgentText(r.agentId), r.payload, AgentText(s.agentId), s.payload);
    }
  }

  // s differs from r in event type or agent only, and has the same canonical string.
  predicate IsTwin(env: Env, r: Row, s: Row) {
    && Image(env, r) == Image(env, s)
    && r.seqNo == s.seqNo && r.ts == s.ts && r.payload == s.payload && r.prevHash == s.prevHash
    && (r.eventType != s.eventType || AgentText(r.agentId) != AgentText(s.agentId))
  }

  function FirstIndex(s: string, c: char): (i: nat)
    requires c in s
    ensures i < |s| && s[i] == c && c !in s[..i]
  {
    if s[0] == c then 0 else 1 + FirstIndex(s[1..], c)
  }

  // The twin that moves text across the separator between event type and agent.
  function Twin(r: Row): Row
    requires !Clean(r)
  {
    if '|' in r.eventType then
      var i := FirstIndex(r.eventType, '|');
      r.(eventType := r.eventType[..i],
         agentId := Some(Piped(r.eventType[i + 1..], AgentText(r.agentId))))
    else
      var a := AgentText(r.agentId);
      var i := FirstIndex(a, '|');
      r.(eventType := Piped(r.eventType, a[..i]), agentId := Some(a[i + 1..]))
  }

  lemma TwinCollides(env: Env, r: Row)
    requires !Clean(r)
    ensures IsTwin(env, r, Twin(r))
  {
    var t, a := Twin(r), AgentText(r.agentId);
    MiddleRegrouped(r);
    MiddleRegrouped(t);
    if '|' in r.eventType {
      var i := FirstIndex(r.eventType, '|');
      assert r.eventType == Piped(r.eventType[..i], r.eventType[i + 1..]);
    } else {
      var i := FirstIndex(a, '|');
      assert a == Piped(a[..i], a[i + 1..]);
    }
    assert Piped(t.eventType, AgentText(t.agentId)) == Piped(r.eventType, a);
  }

  lemma CleanHasNoTwin(env: Env, r: Row, s: Row)
    requires Clean(r) && Image(env, r) == Image(env, s)
    requires r.ts == s.ts && r.payload == s.payload && r.prevHash == s.prevHash
    ensures r.eventType == s.eventType && AgentText(r.agentId) == AgentText(s.agentId)
  {
    ImageSeq(env, r, s);
    var iso, x, y := env.iso(r.ts), Piped(Middle(r), r.prevHash), Piped(Middle(s), s.prevHash);
    PipedParts(iso, x);
    PipedParts(iso, y);
    SamePayloadTail(Middle(r), Middle(s), r.prevHash);
    MiddleRegrouped(r);
    MiddleRegrouped(s);
    SamePayloadTail(Piped(r.eventType, AgentText(r.agentId)), Piped(s.eventType, AgentText(s.agentId)), r.payload);
    OnlyPipe(r.eventType, AgentText(r.agentId), s.eventType, AgentText(s.agentId));
  }

  /** The clean rows are exactly the unambiguous ones: some other event/agent pair has the same
      canonical string if and only if one of the two columns holds '|'. */
  lemma RowHasTwinIffUnclean(env: Env, r: Row)
    ensures (exists s :: IsTwin(env, r, s)) <==> !Clean(r)
  {
    if !Clean(r) {
      TwinCollides(env, r);
    } else {
      forall s | Image(env, r) == Image(env, s) && r.ts == s.ts && r.payload == s.payload && r.prevHash == s.prevHash
        ensures !IsTwin(env, r, s)
      {
        CleanHasNoTwin(env, r, s);
      }
    }
  }
}
