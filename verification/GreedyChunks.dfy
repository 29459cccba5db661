/** How greedily the units are packed into chunks. */
module GreedyChunks {
  import opened TextUnits
  import opened Ingestor

  // What the first m units count for, the blank line behind each included.
  function Size(units: seq<string>, m: nat): nat
    requires m <= |units|
  {
    if m == 0 then 0 else Size(units, m - 1) + |units[m - 1]| + 2
  }

  // What group i starts with: the overlap of the group before it, which counts even where it is blank and left out.
  function Base(groups: seq<Group>, overlap: nat, i: nat): nat
    requires i <= |groups|
  {
    if i == 0 then 0 else |Tail(Text(groups[i - 1]), overlap)|
  }

  // All units but the first were added because they fitted.
  ghost predicate Fitted(limit: nat, base: nat, units: seq<string>) {
    && units != []
    && forall m {:trigger units[m]} :: 0 < m < |units| ==> base + Size(units, m) + |units[m]| + 1 <= limit
  }

  // A unit that would not have fitted behind these.
  predicate Overflows(limit: nat, base: nat, units: seq<string>, unit: string) {
    base + Size(units, |units|) + |unit| + 1 > limit
  }

  // Group i holds as many units as fit: the first unit of the next group would not have.
  ghost predicate TightAt(limit: nat, overlap: nat, groups: seq<Group>, i: nat)
    requires i < |groups|
  {
    && Fitted(limit, Base(groups, overlap, i), groups[i].units)
    && (i + 1 < |groups| ==>
          && groups[i + 1].units != []
          && Overflows(limit, Base(groups, overlap, i), groups[i].units, groups[i + 1].units[0]))
  }

  ghost predicate Tight(limit: nat, overlap: nat, groups: seq<Group>) {
    forall i :: 0 <= i < |groups| ==> TightAt(limit, overlap, groups, i)
  }

  lemma {:induction false} SizePrefix(units: seq<string>, x: string, m: nat)
    requires m <= |units|
    ensures Size(units + [x], m) == Size(units, m)
  {
    if m > 0 {
      SizePrefix(units, x, m - 1);
    }
  }

  lemma FittedSnoc(limit: nat, base: nat, units: seq<string>, x: string)
    requires Fitted(limit, base, units) && !Overflows(limit, base, units, x)
    ensures Fitted(limit, base, units + [x])
    ensures Size(units + [x], |units| + 1) == Size(units, |units|) + |x| + 2
  {
    SizePrefix(units, x, |units|);
    forall m | 0 < m < |units| + 1
      ensures base + Size(units + [x], m) + |(units + [x])[m]| + 1 <= limit
    {
      SizePrefix(units, x, m);
      assert m < |units| ==> (units + [x])[m] == units[m];
    }
  }

  lemma FittedOne(limit: nat, base: nat, x: string)
    ensures Fitted(limit, base, [x]) && Size([x], 1) == |x| + 2
  {
    assert Size([x], 0) == 0;
  }

  // The last group, replaced by one that starts and goes on alike.
  lemma TightJoins(limit: nat, overlap: nat, front: seq<Group>, last: Group, x: string)
    requires Tight(limit, overlap, front + [last])
    requires !Overflows(limit, Base(front, overlap, |front|), last.units, x)
    ensures Tight(limit, overlap, front + [Group(last.lead, last.units + [x])])
    ensures last.units != []
  {
    var was, now, m := front + [last], front + [Group(last.lead, last.units + [x])], |front|;
    hide Text, Tail, Size;
    assert Base(was, overlap, m) == Base(front, overlap, m) == Base(now, overlap, m);
    assert TightAt(limit, overlap, was, m);
    FittedSnoc(limit, Base(front, overlap, m), last.units, x);
    forall i | 0 <= i < |now|
      ensures TightAt(limit, overlap, now, i)
    {
      assert TightAt(limit, overlap, was, i) && Base(was, overlap, i) == Base(now, overlap, i);
      if i < m {
        assert now[i] == was[i] && now[i + 1].units[0] == was[i + 1].units[0];
      }
    }
  }

  lemma TightOpens(limit: nat, overlap: nat, groups: seq<Group>, lead: string, x: string)
    requires Tight(limit, overlap, groups)
    requires groups != [] ==>
      Overflows(limit, Base(groups, overlap, |groups| - 1), groups[|groups| - 1].units, x)
    ensures Tight(limit, overlap, groups + [Group(lead, [x])])
  {
    var now, m := groups + [Group(lead, [x])], |groups|;
    hide Text, Tail, Size;
    FittedOne(limit, Base(now, overlap, m), x);
    forall i | 0 <= i < |now|
      ensures TightAt(limit, overlap, now, i)
    {
      if i < m {
        assert TightAt(limit, overlap, groups, i) && Base(groups, overlap, i) == Base(now, overlap, i);
        assert now[i] == groups[i];
      }
    }
  }

  // The state of the packing loop once it has taken a unit.
  ghost predicate TightState(limit: nat, overlap: nat, c: Chunking) {
    && Tight(limit, overlap, c.done + [c.open]) && c.open.units != []
    && c.len == Base(c.done, overlap, |c.done|) + Size(c.open.units, |c.open.units|)
  }

  lemma FirstUnit(limit: nat, overlap: nat, unit: string)
    ensures TightState(limit, overlap, AddUnit(limit, overlap, Chunking([], Group("", []), 0), unit))
  {
    var c := AddUnit(limit, overlap, Chunking([], Group("", []), 0), unit);
    assert c == Chunking([], Group("", [unit]), |unit| + 2);
    TightOpens(limit, overlap, [], "", unit);
    FittedOne(limit, 0, unit);
    assert [] + [c.open] == [Group("", [unit])];
  }

  lemma AddUnitCases(limit: nat, overlap: nat, c: Chunking, unit: string)
    requires c.open.units != []
    ensures AddUnit(limit, overlap, c, unit)
      == if c.len + |unit| + 1 > limit then
           var tail := |Tail(Text(c.open), overlap)|;
           Chunking(c.done + [c.open], Group(LeadAfter(Text(c.open), overlap), [unit]), tail + |unit| + 2)
         else Chunking(c.done, Group(c.open.lead, c.open.units + [unit]), c.len + |unit| + 2)
  {
    assert Parts(c.open) != [];
    hide Text, Tail, LeadAfter;
  }

  lemma LastBase(done: seq<Group>, last: Group, overlap: nat)
    ensures Base(done + [last], overlap, |done|) == Base(done, overlap, |done|)
    ensures Base(done + [last], overlap, |done| + 1) == |Tail(Text(last), overlap)|
  {
    hide Text, Tail;
  }

  lemma NextUnit(limit: nat, overlap: nat, c: Chunking, unit: string)
    requires TightState(limit, overlap, c)
    ensures TightState(limit, overlap, AddUnit(limit, overlap, c, unit))
  {
    var all := c.done + [c.open];
    hide Text, Tail, LeadAfter, Parts, Tight, Fitted, Base, AddUnit, Size;
    AddUnitCases(limit, overlap, c, unit);
    LastBase(c.done, c.open, overlap);
    if c.len + |unit| + 1 > limit {
      TightOpens(limit, overlap, all, LeadAfter(Text(c.open), overlap), unit);
      FittedOne(limit, 0, unit);
    } else {
      TightJoins(limit, overlap, c.done, c.open, unit);
      OpenFitted(limit, overlap, c);
      FittedSnoc(limit, Base(c.done, overlap, |c.done|), c.open.units, unit);
    }
  }

  lemma OpenFitted(limit: nat, overlap: nat, c: Chunking)
    requires Tight(limit, overlap, c.done + [c.open])
    ensures Fitted(limit, Base(c.done, overlap, |c.done|), c.open.units)
  {
    hide Text, Tail, Fitted;
    assert TightAt(limit, overlap, c.done + [c.open], |c.done|);
    assert Base(c.done + [c.open], overlap, |c.done|) == Base(c.done, overlap, |c.done|);
  }

  lemma {:induction false} TightAfter(limit: nat, overlap: nat, units: seq<string>, k: nat)
    requires 0 < k <= |units|
    ensures TightState(limit, overlap, AddUnits(limit, overlap, units, k))
  {
    hide AddUnit, TightState;
    if k > 1 {
      TightAfter(limit, overlap, units, k - 1);
      NextUnit(limit, overlap, AddUnits(limit, overlap, units, k - 1), units[k - 1]);
    } else {
      assert AddUnits(limit, overlap, units, 0) == Chunking([], Group("", []), 0);
      FirstUnit(limit, overlap, units[0]);
    }
  }

  /** Packing is greedy: every unit but the first of a group was added because it fitted behind the overlap and the
      units before it, and every group but the last was closed because the next unit did not. */
  lemma GroupsAreTight(limit: nat, overlap: nat, units: seq<string>)
    ensures Tight(limit, overlap, Groups(limit, overlap, units))
  {
    var c := AddUnits(limit, overlap, units, |units|);
    if units != [] {
      TightAfter(limit, overlap, units, |units|);
      assert Parts(c.open) != [];
    }
  }
}
