/** OllamaClusterManager: pick a healthy node for each request. */
module ClusterRouter {
  import opened Wrappers

  datatype Node = Node(name: string, url: string, enabled: bool)

  datatype Health = Health(name: string, url: string, healthy: bool, latency: real)

  datatype Routing = RoundRobin | PrimaryFirst | LeastBusy

  // Which entry of the healthy list serves a request, and by which rule.
  datatype Choice = Fallback | Preferred(index: nat) | Routed(index: nat) | Turn(index: nat)

  // health is in dictionary order; no two entries share a name (the source's label).
  datatype Cluster = Cluster(nodes: seq<Node>, routing: Routing, fallback: string, health: seq<Health>, turn: nat)

  function Up(health: seq<Health>): seq<Health> {
    if health == [] then []
    else Up(health[..|health| - 1]) + if health[|health| - 1].healthy then [health[|health| - 1]] else []
  }

  // Position of the first entry with this name, or the length.
  function Find(up: seq<Health>, name: string, i: nat): (j: nat)
    requires i <= |up|
    ensures i <= j <= |up| && (j < |up| ==> up[j].name == name)
    ensures forall k :: i <= k < j ==> up[k].name != name
    decreases |up| - i
  {
    if i == |up| || up[i].name == name then i else Find(up, name, i + 1)
  }

  // The first enabled node from k on that is up.
  function Primary(nodes: seq<Node>, up: seq<Health>, k: nat): Option<nat>
    requires k <= |nodes|
    decreases |nodes| - k
  {
    if k == |nodes| then None
    else if nodes[k].enabled && Find(up, nodes[k].name, 0) < |up| then Some(Find(up, nodes[k].name, 0))
    else Primary(nodes, up, k + 1)
  }

  function Load(h: Health): real {
    if h.latency > 0.0 then h.latency else 99999.0
  }

  // min(...): the first of the least loaded among the first k.
  function LeastLoaded(up: seq<Health>, k: nat): (i: nat)
    requires 0 < k <= |up|
    ensures i < k
  {
    if k == 1 then 0
    else
      var i := LeastLoaded(up, k - 1);
      if Load(up[k - 1]) < Load(up[i]) then k - 1 else i
  }

  // An empty preference is none.
  function Choose(c: Cluster, prefer: string): Choice {
    var up := Up(c.health);
    if c.nodes == [] || up == [] then Fallback
    else if prefer != "" && Find(up, prefer, 0) < |up| then Preferred(Find(up, prefer, 0))
    else
      match c.routing
      case PrimaryFirst => (match Primary(c.nodes, up, 0) case Some(i) => Routed(i) case None => Fallback)
      case LeastBusy => Routed(LeastLoaded(up, |up|))
      case RoundRobin => Turn(c.turn % |up|)
  }

  function After(c: Cluster, prefer: string): Cluster {
    if Choose(c, prefer).Turn? then c.(turn := c.turn + 1) else c
  }

  predicate DistinctNames(health: seq<Health>) {
    forall i, j :: 0 <= i < j < |health| ==> health[i].name != health[j].name
  }

  // The entry of that name is the status; the others stay, where they were.
  ghost predicate Stores(before: seq<Health>, after: seq<Health>, status: Health) {
    && status in after && DistinctNames(after)
    && (forall i :: 0 <= i < |after| && after[i].name == status.name ==> after[i] == status)
    && (forall i :: 0 <= i < |before| && before[i].name != status.name ==> i < |after| && after[i] == before[i])
    && |after| == |before| + if exists i :: 0 <= i < |before| && before[i].name == status.name then 0 else 1
  }

  // dict[name] = status
  function WithHealth(health: seq<Health>, status: Health): (after: seq<Health>)
    ensures DistinctNames(health) ==> Stores(health, after, status)
  {
    var i := Find(health, status.name, 0);
    var after := if i < |health| then health[i := status] else health + [status];
    assert after[i] == status;
    after
  }

  // Not yet checked: every enabled node, down.
  function Seeded(nodes: seq<Node>, k: nat): (health: seq<Health>)
    requires k <= |nodes|
    ensures DistinctNames(health)
  {
    if k == 0 then []
    else if nodes[k - 1].enabled then
      WithHealth(Seeded(nodes, k - 1), Health(nodes[k - 1].name, nodes[k - 1].url, false, 0.0))
    else Seeded(nodes, k - 1)
  }

  class ClusterManager {
    var nodes: seq<Node>
    const routing: Routing
    const fallbackUrl: string
    var health: seq<Health>
    var rrIndex: nat

    function Model(): Cluster
      reads this
    {
      Cluster(nodes, routing, fallbackUrl, health, rrIndex)
    }

    ghost predicate Valid()
      reads this
    {
      DistinctNames(health)
    }

    constructor (nodes: seq<Node>, routing: Routing, fallbackUrl: string)
      ensures this.nodes == nodes && this.routing == routing && this.fallbackUrl == fallbackUrl && rrIndex == 0
      ensures health == Seeded(nodes, |nodes|) && Valid()
    {
      this.nodes, this.routing, this.fallbackUrl, rrIndex := nodes, routing, fallbackUrl, 0;
      health := [];
      new;
      for k := 0 to |nodes|
        invariant this.nodes == nodes && rrIndex == 0
        invariant health == Seeded(nodes, k)
      {
        var node := nodes[k];
        if node.enabled {
          health := WithHealth(health, Health(node.name, node.url, false, 0.0));
        }
      }
    }

    method GetHealthyUrl(prefer: string) returns (url: string)
      modifies this`rrIndex
      ensures Model() == After(old(Model()), prefer)
      ensures var choice, up := Choose(old(Model()), prefer), Up(health);
        url == if choice.Fallback? then fallbackUrl else if choice.index < |up| then up[choice.index].url else ""
    {
      if nodes == [] {
        return fallbackUrl;
      }
      var up := Up(health);
      if up == [] {
        return fallbackUrl;
      }
      if prefer != "" {
        var i := Find(up, prefer, 0);
        if i < |up| {
          return up[i].url;
        }
      }
      match routing
      case PrimaryFirst =>
        for k := 0 to |nodes|
          invariant Primary(nodes, up, 0) == Primary(nodes, up, k)
        {
          if nodes[k].enabled {
            var i := Find(up, nodes[k].name, 0);
            if i < |up| {
              return up[i].url;
            }
          }
        }
        return fallbackUrl;
      case LeastBusy =>
        var best := 0;
        for k := 1 to |up|
          invariant best == LeastLoaded(up, k)
        {
          if Load(up[k]) < Load(up[best]) {
            best := k;
          }
        }
        return up[best].url;
      case RoundRobin =>
        var i := rrIndex % |up|;
        rrIndex := rrIndex + 1;
        return up[i].url;
    }

    // None is the ValueError for a name in use.
    method AddNode(name: string, url: string, enabled: bool) returns (added: bool)
      requires Valid()
      modifies this`nodes, this`health
      ensures Valid()
      ensures added <==> !Known(old(nodes), name)
      ensures if added then nodes == old(nodes) + [Node(name, url, enabled)]
          && Stores(old(health), health, Health(name, url, false, 0.0))
        else nodes == old(nodes) && health == old(health)
    {
      added := !Known(nodes, name);
      if added {
        nodes := nodes + [Node(name, url, enabled)];
        health := WithHealth(health, Health(name, url, false, 0.0));
      }
    }

    method RemoveNode(name: string) returns (removed: bool)
      requires Valid()
      modifies this`nodes, this`health
      ensures Valid()
      ensures removed <==> Known(old(nodes), name)
      ensures nodes == Others(old(nodes), name, |old(nodes)|)
      ensures health == Without(old(health), name)
    {
      hide Known;
      removed := false;
      var all, kept := nodes, [];
      NothingKnown(all, name);
      for k := 0 to |all|
        invariant removed <==> Known(all[..k], name)
        invariant kept == Others(all, name, k) && health == old(health)
      {
        KnownTo(all, name, k);
        if all[k].name == name {
          removed := true;
        } else {
          kept := kept + [all[k]];
        }
      }
      assert all[..|all|] == all;
      nodes := kept;
      health := Without(health, name);
    }

    method UpdateHealth(status: Health)
      requires Valid()
      modifies this`health
      ensures Valid() && Stores(old(health), health, status)
    {
      health := WithHealth(health, status);
    }
  }

  predicate Known(nodes: seq<Node>, name: string) {
    exists i :: 0 <= i < |nodes| && nodes[i].name == name
  }

  lemma NothingKnown(nodes: seq<Node>, name: string)
    ensures !Known(nodes[..0], name)
  {
  }

  lemma KnownTo(nodes: seq<Node>, name: string, k: nat)
    requires k < |nodes|
    ensures Known(nodes[..k + 1], name) <==> Known(nodes[..k], name) || nodes[k].name == name
  {
    assert forall i :: 0 <= i < k ==> nodes[..k + 1][i] == nodes[..k][i];
    assert nodes[..k + 1][k] == nodes[k];
  }

  // The first k nodes but those of this name, in order.
  function Others(nodes: seq<Node>, name: string, k: nat): (kept: seq<Node>)
    requires k <= |nodes|
    ensures !Known(kept, name) && forall n :: n in nodes[..k] && n.name != name ==> n in kept
  {
    if k == 0 then []
    else
      assert nodes[..k] == nodes[..k - 1] + [nodes[k - 1]];
      Others(nodes, name, k - 1) + if nodes[k - 1].name != name then [nodes[k - 1]] else []
  }

  // dict.pop
  function Without(health: seq<Health>, name: string): (after: seq<Health>)
    ensures DistinctNames(health) ==> DistinctNames(after) && forall h :: h in after <==> h in health && h.name != name
  {
    var i := Find(health, name, 0);
    if i < |health| then health[..i] + health[i + 1..] else health
  }

  // ---------------------------------------------------------------- the table of nodes

  // h is what is known of a node that was never polled.
  predicate Unpolled(nodes: seq<Node>, k: nat, h: Health)
    requires k <= |nodes|
  {
    exists i :: 0 <= i < k && nodes[i].enabled && h == Health(nodes[i].name, nodes[i].url, false, 0.0)
  }

  /** At the start every enabled node has an entry, no other has, and none is up. */
  lemma {:induction false} SeededMeaning(nodes: seq<Node>, k: nat)
    requires k <= |nodes|
    ensures forall h :: h in Seeded(nodes, k) ==> Unpolled(nodes, k, h)
    ensures forall i :: 0 <= i < k && nodes[i].enabled ==> exists h :: h in Seeded(nodes, k) && h.name == nodes[i].name
  {
    if k > 0 {
      SeededMeaning(nodes, k - 1);
      var before, after := Seeded(nodes, k - 1), Seeded(nodes, k);
      forall h | h in after
        ensures Unpolled(nodes, k, h)
      {
        if h in before {
          assert Unpolled(nodes, k - 1, h);
        } else {
          assert h == Health(nodes[k - 1].name, nodes[k - 1].url, false, 0.0);
        }
      }
      forall i | 0 <= i < k && nodes[i].enabled
        ensures exists h :: h in after && h.name == nodes[i].name
      {
        if i < k - 1 {
          var h :| h in before && h.name == nodes[i].name;
          if nodes[k - 1].enabled {
            StillNamed(before, Health(nodes[k - 1].name, nodes[k - 1].url, false, 0.0), h);
          }
        }
      }
    }
  }

  lemma StillNamed(before: seq<Health>, status: Health, h: Health)
    requires DistinctNames(before) && h in before
    ensures exists g :: g in WithHealth(before, status) && g.name == h.name
  {
    var after := WithHealth(before, status);
    var i :| 0 <= i < |before| && before[i] == h;
    assert after[i] in after && after[i].name == h.name;
  }

  lemma OthersStep(nodes: seq<Node>, name: string, k: nat)
    requires k < |nodes|
    ensures Others(nodes, name, k + 1)
      == if nodes[k].name != name then Others(nodes, name, k) + [nodes[k]] else Others(nodes, name, k)
    ensures Others(nodes, name, 0) == []
  {
    assert Others(nodes, name, k) + [] == Others(nodes, name, k);
    hide Known;
  }

  /** Removing takes all nodes of the name, and keeps the others as often as they were ... */
  lemma {:induction false} OthersStay(nodes: seq<Node>, name: string, k: nat, x: Node)
    requires k <= |nodes| && nodes != []
    ensures multiset(Others(nodes, name, k))[x] == if x.name == name then 0 else multiset(nodes[..k])[x]
  {
    hide Others, Known;
    if k > 0 {
      OthersStay(nodes, name, k - 1, x);
      OthersStep(nodes, name, k - 1);
      assert nodes[..k] == nodes[..k - 1] + [nodes[k - 1]];
    } else {
      OthersStep(nodes, name, 0);
    }
  }

  /** ... and in their order: node i comes right after those of the nodes before it. */
  lemma {:induction false} OthersInOrder(nodes: seq<Node>, name: string, k: nat, i: nat)
    requires i < k <= |nodes| && nodes[i].name != name
    ensures |Others(nodes, name, i)| < |Others(nodes, name, k)|
    ensures Others(nodes, name, k)[|Others(nodes, name, i)|] == nodes[i]
  {
    hide Others, Known;
    OthersStep(nodes, name, k - 1);
    if i < k - 1 {
      OthersInOrder(nodes, name, k - 1, i);
    }
  }

  /** Removing an entry, at i, leaves those before and after it as they were. */
  lemma WithoutMeaning(health: seq<Health>, name: string) returns (i: nat)
    ensures var after := Without(health, name);
      if i >= |health| then after == health && forall h :: h in health ==> h.name != name
      else
        && health[i].name == name && |after| == |health| - 1
        && after[..i] == health[..i] && after[i..] == health[i + 1..]
  {
    hide DistinctNames;
    i := Find(health, name, 0);
  }

  // ---------------------------------------------------------------- what is chosen

  lemma {:induction false} UpMeaning(health: seq<Health>)
    ensures forall h :: h in Up(health) <==> h in health && h.healthy
  {
    if health != [] {
      var n := |health| - 1;
      UpMeaning(health[..n]);
      assert health == health[..n] + [health[n]];
    }
  }

  lemma UpSnoc(a: seq<Health>, h: Health)
    ensures Up(a + [h]) == Up(a) + if h.healthy then [h] else []
  {
    assert (a + [h])[..|a|] == a;
  }

  lemma Assoc(a: seq<Health>, b: seq<Health>, c: seq<Health>)
    ensures a + b + c == a + (b + c)
  {
  }

  // The entries that are up keep their order.
  lemma {:induction false} UpInOrder(a: seq<Health>, b: seq<Health>)
    ensures Up(a + b) == Up(a) + Up(b)
  {
    if b == [] {
      assert a + b == a && Up(a) + [] == Up(a);
    } else {
      hide Up;
      var front, h := b[..|b| - 1], b[|b| - 1];
      UpInOrder(a, front);
      UpSnoc(a + front, h);
      UpSnoc(front, h);
      Assoc(a, front, [h]);
      Assoc(Up(a), Up(front), if h.healthy then [h] else []);
      assert b == front + [h];
    }
  }

  lemma {:induction false} LeastLoadedMeaning(up: seq<Health>, k: nat)
    requires 0 < k <= |up|
    ensures var i := LeastLoaded(up, k);
      forall j :: 0 <= j < k ==> Load(up[i]) <= Load(up[j]) && (j < i ==> Load(up[i]) < Load(up[j]))
  {
    if k > 1 {
      LeastLoadedMeaning(up, k - 1);
    }
  }

  // Node k is enabled and up.
  predicate Serves(nodes: seq<Node>, up: seq<Health>, k: nat) {
    k < |nodes| && nodes[k].enabled && exists j :: 0 <= j < |up| && up[j].name == nodes[k].name
  }

  // From node k on, node m is the first that is enabled and up, and it is entry i.
  predicate FirstServing(nodes: seq<Node>, up: seq<Health>, k: nat, m: nat, i: nat) {
    && i < |up| && k <= m && Serves(nodes, up, m) && up[i].name == nodes[m].name
    && forall l: nat :: k <= l < m ==> !Serves(nodes, up, l)
  }

  lemma {:induction false} PrimaryMeaning(nodes: seq<Node>, up: seq<Health>, k: nat)
    requires k <= |nodes|
    ensures Primary(nodes, up, k) == None <==> forall m: nat :: k <= m ==> !Serves(nodes, up, m)
    ensures Primary(nodes, up, k).Some? ==> exists m: nat :: FirstServing(nodes, up, k, m, Primary(nodes, up, k).value)
    decreases |nodes| - k
  {
    if k < |nodes| {
      if nodes[k].enabled && Find(up, nodes[k].name, 0) < |up| {
        assert Serves(nodes, up, k);
        assert FirstServing(nodes, up, k, k, Find(up, nodes[k].name, 0));
      } else {
        assert !Serves(nodes, up, k);
        PrimaryMeaning(nodes, up, k + 1);
        hide Serves;
        if Primary(nodes, up, k + 1).Some? {
          var m: nat :| FirstServing(nodes, up, k + 1, m, Primary(nodes, up, k + 1).value);
          assert FirstServing(nodes, up, k, m, Primary(nodes, up, k + 1).value);
        }
      }
    }
  }

  // No entry has a lower measured latency; an entry without one counts as 99999.
  predicate LeastBusyEntry(up: seq<Health>, i: nat) {
    i < |up| && forall j :: 0 <= j < |up| ==>
      if up[i].latency > 0.0 then up[i].latency <= if up[j].latency > 0.0 then up[j].latency else 99999.0
      else up[j].latency > 0.0 ==> up[j].latency >= 99999.0
  }

  lemma LeastLoadedIsLeastBusy(up: seq<Health>)
    requires up != []
    ensures LeastBusyEntry(up, LeastLoaded(up, |up|))
  {
    LeastLoadedMeaning(up, |up|);
    hide LeastLoaded;
  }

  predicate NothingToChoose(c: Cluster, up: seq<Health>, preferred: bool) {
    c.nodes == [] || up == []
      || (!preferred && c.routing.PrimaryFirst? && forall m :: 0 <= m < |c.nodes| ==> !Serves(c.nodes, up, m))
  }

  /** A request is served by a node that is up: the preferred one if it is, else by the routing rule, the next in
      turn, the least busy or the first configured; the fallback serves exactly when there is none to choose. */
  lemma ChoiceMeaning(c: Cluster, prefer: string)
    ensures var choice, up := Choose(c, prefer), Up(c.health);
      var preferred := c.nodes != [] && prefer != "" && exists j :: 0 <= j < |up| && up[j].name == prefer;
      && (choice.Fallback? <==> NothingToChoose(c, up, preferred))
      && (!choice.Fallback? ==> choice.index < |up| && up[choice.index] in c.health && up[choice.index].healthy)
      && (choice.Preferred? <==> preferred) && (choice.Preferred? ==> up[choice.index].name == prefer)
      && var open := !preferred && !NothingToChoose(c, up, preferred);
      && (choice.Turn? <==> open && c.routing.RoundRobin?) && (choice.Turn? ==> choice.index == c.turn % |up|)
      && (choice.Routed? <==> open && !c.routing.RoundRobin?)
      && (open && c.routing.LeastBusy? ==> LeastBusyEntry(up, choice.index))
      && (open && c.routing.PrimaryFirst? ==> exists m: nat :: FirstServing(c.nodes, up, 0, m, choice.index))
  {
    var up := Up(c.health);
    UpMeaning(c.health);
    PrimaryMeaning(c.nodes, up, 0);
    if up != [] {
      LeastLoadedIsLeastBusy(up);
    }
    hide Up, Primary, LeastLoaded, Load, Serves, LeastBusyEntry;
  }

  /** A stored health result takes effect at once: a request that prefers a node just found up goes to it,
      and none goes to a node just found down. */
  lemma UpdateTakesEffect(c: Cluster, status: Health, health: seq<Health>, prefer: string)
    requires Stores(c.health, health, status)
    ensures var after := c.(health := health);
      var choice, up := Choose(after, prefer), Up(health);
      && (c.nodes != [] && status.healthy && prefer == status.name != "" ==>
            choice.Preferred? && choice.index < |up| && up[choice.index] == status)
      && (!status.healthy && !choice.Fallback? ==> choice.index < |up| && up[choice.index].name != status.name)
  {
    var after := c.(health := health);
    ChoiceMeaning(after, prefer);
    UpMeaning(health);
    hide Choose, Up, Stores;
    var up := Up(health);
    forall h | h in up && h.name == status.name
      ensures h == status
    {
      OnlyStatus(c.health, health, status, h);
    }
    StatusStored(c.health, health, status);
    if status.healthy {
      var j :| 0 <= j < |up| && up[j] == status;
    }
  }

  lemma OnlyStatus(before: seq<Health>, after: seq<Health>, status: Health, h: Health)
    requires Stores(before, after, status) && h in after && h.name == status.name
    ensures h == status
  {
  }

  lemma StatusStored(before: seq<Health>, after: seq<Health>, status: Health)
    requires Stores(before, after, status)
    ensures status in after
  {
  }

  // ---------------------------------------------------------------- fairness

  // The cluster after k requests, with health and nodes unchanged.
  function Serve(c: Cluster, requests: seq<string>, k: nat): Cluster
    requires k <= |requests|
  {
    if k == 0 then c else After(Serve(c, requests, k - 1), requests[k - 1])
  }

  // The request prefers no node, or one that is not up.
  predicate Unpreferred(up: seq<Health>, prefer: string) {
    prefer == "" || forall j :: 0 <= j < |up| ==> up[j].name != prefer
  }

  // How many of the first k requests are so, and how many of those go to entry j.
  function Open(c: Cluster, requests: seq<string>, k: nat): nat
    requires k <= |requests|
  {
    if k == 0 then 0 else Open(c, requests, k - 1) + if Unpreferred(Up(c.health), requests[k - 1]) then 1 else 0
  }

  function Picks(c: Cluster, requests: seq<string>, k: nat, j: nat): nat
    requires k <= |requests|
  {
    if k == 0 then 0
    else
      var choice := Choose(Serve(c, requests, k - 1), requests[k - 1]);
      Picks(c, requests, k - 1, j)
      + if Unpreferred(Up(c.health), requests[k - 1]) && !choice.Fallback? && choice.index == j then 1 else 0
  }

  // The numbers below x that are j modulo n.
  function Below(x: nat, n: nat, j: nat): nat
    requires j < n
  {
    (x + n - 1 - j) / n
  }

  lemma TimesMonotone(a: nat, b: nat, n: nat)
    ensures a <= b ==> a * n <= b * n
  {
  }

  lemma DivisionOf(x: nat, n: nat, q: nat, r: nat)
    requires n > 0 && r < n && x == q * n + r
    ensures x / n == q && x % n == r
  {
    var d := x / n;
    assert x == d * n + x % n;
    assert (d + 1) * n == d * n + n && (q + 1) * n == q * n + n;
    TimesMonotone(d + 1, q, n);
    TimesMonotone(q + 1, d, n);
  }

  lemma BelowAt(q: nat, r: nat, n: nat, j: nat)
    requires r < n && j < n
    ensures Below(q * n + r, n, j) == q + if j < r then 1 else 0
  {
    var x := q * n + r + n - 1 - j;
    assert (q + 1) * n == q * n + n;
    if j < r {
      DivisionOf(x, n, q + 1, r - j - 1);
    } else {
      DivisionOf(x, n, q, r + n - 1 - j);
    }
  }

  lemma BelowAfter(q: nat, r: nat, n: nat, j: nat)
    requires r < n && j < n
    ensures Below(q * n + r + 1, n, j) == Below(q * n + r, n, j) + if r == j then 1 else 0
  {
    hide Below;
    BelowAt(q, r, n, j);
    if r + 1 < n {
      BelowAt(q, r + 1, n, j);
    } else {
      assert (q + 1) * n + 0 == q * n + r + 1;
      BelowAt(q + 1, 0, n, j);
    }
  }

  lemma BelowStep(x: nat, n: nat, j: nat)
    requires j < n
    ensures Below(x + 1, n, j) == Below(x, n, j) + if x % n == j then 1 else 0
  {
    hide Below;
    BelowAfter(x / n, x % n, n, j);
    assert x == x / n * n + x % n;
  }

  lemma QuotientOfSum(n: nat, q: nat, r: nat, p: nat, s: nat)
    requires r < n && s < n
    ensures (q * n + r + (p * n + s)) / n == q + p + if r + s < n then 0 else 1
  {
    var t := q + p;
    assert t * n == q * n + p * n && (t + 1) * n == t * n + n;
    if r + s < n {
      DivisionOf(q * n + r + (p * n + s), n, t, r + s);
    } else {
      DivisionOf(q * n + r + (p * n + s), n, t + 1, r + s - n);
    }
  }

  lemma QuotientUp(n: nat, p: nat, s: nat)
    requires s < n
    ensures (p * n + s + n - 1) / n == p + if s == 0 then 0 else 1
  {
    assert (p + 1) * n == p * n + n;
    if s == 0 {
      DivisionOf(p * n + s + n - 1, n, p, n - 1);
    } else {
      DivisionOf(p * n + s + n - 1, n, p + 1, s - 1);
    }
  }

  lemma SpreadAt(n: nat, q: nat, r: nat, p: nat, s: nat)
    requires r < n && s < n
    ensures p <= (q * n + r + (p * n + s)) / n - q <= (p * n + s + n - 1) / n
  {
    QuotientOfSum(n, q, r, p, s);
    QuotientUp(n, p, s);
  }

  lemma DivMod(x: nat, n: nat)
    requires n > 0
    ensures x == x / n * n + x % n && x % n < n
  {
  }

  lemma SpreadOf(n: nat, a: nat, m: nat, q: nat, r: nat, p: nat, s: nat)
    requires r < n && s < n && a == q * n + r && m == p * n + s
    ensures p <= (a + m) / n - q <= (m + n - 1) / n
  {
    SpreadAt(n, q, r, p, s);
  }

  lemma QuotientSpread(a: nat, m: nat, n: nat)
    requires n > 0
    ensures m / n <= (a + m) / n - a / n <= (m + n - 1) / n
  {
    DivMod(a, n);
    DivMod(m, n);
    SpreadOf(n, a, m, a / n, a % n, m / n, m % n);
  }

  lemma BelowSpread(x: nat, m: nat, n: nat, j: nat)
    requires j < n
    ensures m / n <= Below(x + m, n, j) - Below(x, n, j) <= (m + n - 1) / n
  {
    QuotientSpread(x + n - 1 - j, m, n);
    assert x + m + n - 1 - j == x + n - 1 - j + m;
  }

  lemma TurnIndex(c: Cluster, prefer: string)
    requires c.routing.RoundRobin? && c.nodes != [] && Up(c.health) != []
    ensures Unpreferred(Up(c.health), prefer) ==> Choose(c, prefer) == Turn(c.turn % |Up(c.health)|)
    ensures Choose(c, prefer).Turn? <==> Unpreferred(Up(c.health), prefer)
  {
    ChoiceMeaning(c, prefer);
    hide Up, Choose;
  }

  lemma {:induction false} PicksCounted(c: Cluster, requests: seq<string>, k: nat, j: nat)
    requires c.routing.RoundRobin? && c.nodes != [] && k <= |requests| && j < |Up(c.health)|
    ensures Serve(c, requests, k) == c.(turn := c.turn + Open(c, requests, k))
    ensures Picks(c, requests, k, j)
      == Below(c.turn + Open(c, requests, k), |Up(c.health)|, j) - Below(c.turn, |Up(c.health)|, j)
  {
    hide Up, Below, Choose, Unpreferred;
    if k > 0 {
      PicksCounted(c, requests, k - 1, j);
      TurnIndex(Serve(c, requests, k - 1), requests[k - 1]);
      BelowStep(c.turn + Open(c, requests, k - 1), |Up(c.health)|, j);
    }
  }

  /** Round robin is fair: whatever requests for a preferred node come in between and wherever the index stands,
      of m requests whose preference is not up each of the n nodes that are gets m/n, rounded down or up. */
  lemma RoundRobinIsFair(c: Cluster, requests: seq<string>, j: nat)
    requires c.routing.RoundRobin? && c.nodes != [] && j < |Up(c.health)|
    ensures var n, m := |Up(c.health)|, Open(c, requests, |requests|);
      m / n <= Picks(c, requests, |requests|, j) <= (m + n - 1) / n
  {
    PicksCounted(c, requests, |requests|, j);
    BelowSpread(c.turn, Open(c, requests, |requests|), |Up(c.health)|, j);
  }

  // ---------------------------------------------------------------- removed nodes

  // Every health entry belongs to a configured node.
  ghost predicate NoStray(nodes: seq<Node>, health: seq<Health>) {
    forall i :: 0 <= i < |health| ==> Known(nodes, health[i].name)
  }

  /** A poll result that arrives after its node was removed brings the node back into service: storing it
      keeps to configured nodes if and only if the node is still there. */
  lemma LateResultsRestoreRemovedNodes(nodes: seq<Node>, health: seq<Health>, status: Health)
    requires NoStray(nodes, health)
    ensures NoStray(nodes, WithHealth(health, status)) <==> Known(nodes, status.name)
    ensures status.healthy ==> status in Up(WithHealth(health, status))
  {
    var i, after := Find(health, status.name, 0), WithHealth(health, status);
    assert after[i] == status;
    UpMeaning(after);
    hide Up, Known;
    forall k | 0 <= k < |after| && Known(nodes, status.name)
      ensures Known(nodes, after[k].name)
    {
      assert k < |health| ==> Known(nodes, health[k].name);
    }
  }
}
