/** What the chunks of a text still tell about it: when stripping the overlaps and rejoining gives the units back. */
module ChunkRestore {
  import opened TextUnits
  import opened Ingestor

  // A chunk without the overlap that the previous chunk accounts for.
  function Body(prev: string, chunk: string, overlap: nat): string {
    var lead := LeadAfter(prev, overlap);
    if lead == "" || |chunk| < |lead| + 2 then chunk else chunk[|lead| + 2..]
  }

  function Bodies(chunks: seq<string>, overlap: nat): seq<string> {
    seq(|chunks|, i requires 0 <= i < |chunks| => if i == 0 then chunks[0] else Body(chunks[i - 1], chunks[i], overlap))
  }

  // From the chunks alone: strip every overlap and rejoin with blank lines.
  function Restored(chunks: seq<string>, overlap: nat): string {
    Join(Bodies(chunks, overlap))
  }

  lemma {:induction false} JoinConcat(a: seq<string>, b: seq<string>)
    requires a != [] && b != []
    ensures Join(a + b) == Join(a) + "\n\n" + Join(b)
  {
    var n := |b| - 1;
    assert (a + b)[..|a + b| - 1] == a + b[..n];
    if n > 0 {
      JoinConcat(a, b[..n]);
      Assoc(Join(a) + "\n\n", Join(b[..n]), "\n\n" + b[n]);
      Assoc(Join(a) + "\n\n" + Join(b[..n]), "\n\n", b[n]);
      Assoc(Join(b[..n]), "\n\n", b[n]);
    } else {
      assert a + b[..0] == a;
    }
  }

  lemma BodyOfText(prev: Group, g: Group, overlap: nat)
    requires g.units != [] && g.lead == LeadAfter(Text(prev), overlap)
    ensures Body(Text(prev), Text(g), overlap) == Join(g.units)
  {
    hide LeadAfter;
    if g.lead != "" {
      JoinConcat([g.lead], g.units);
      assert Text(g) == g.lead + "\n\n" + Join(g.units);
    }
  }

  lemma BodyAt(groups: seq<Group>, chunks: seq<string>, overlap: nat, i: nat)
    requires Linked(groups, overlap) && i < |groups| == |chunks|
    requires forall i :: 0 <= i < |groups| ==> chunks[i] == Text(groups[i])
    ensures Bodies(chunks, overlap)[i] == Join(groups[i].units)
  {
    hide LeadAfter, Body, Join;
    assert groups[i].lead == LeadAt(groups, overlap, i);
    if i > 0 {
      BodyOfText(groups[i - 1], groups[i], overlap);
    } else {
      assert Text(groups[0]) == Join(groups[0].units);
    }
  }

  lemma {:induction false} FlatNonEmpty(groups: seq<Group>, k: nat)
    requires 0 < k <= |groups| && forall i :: 0 <= i < |groups| ==> groups[i].units != []
    ensures Flat(groups, k) != []
  {
  }

  lemma {:induction false} JoinOfBodies(groups: seq<Group>, bodies: seq<string>, k: nat)
    requires k <= |groups| == |bodies| && forall i :: 0 <= i < |groups| ==> groups[i].units != []
    requires forall i :: 0 <= i < |groups| ==> bodies[i] == Join(groups[i].units)
    ensures Join(bodies[..k]) == Join(Flat(groups, k))
  {
    if k > 1 {
      JoinOfBodies(groups, bodies, k - 1);
      FlatNonEmpty(groups, k - 1);
      JoinConcat(Flat(groups, k - 1), groups[k - 1].units);
      assert bodies[..k][..k - 1] == bodies[..k - 1];
    } else if k == 1 {
      assert Flat(groups, 1) == groups[0].units by {
        assert Flat(groups, 0) == [];
      }
    }
  }

  function Texts(groups: seq<Group>, k: nat): seq<string>
    requires k <= |groups|
  {
    seq(k, i requires 0 <= i < k => Text(groups[i]))
  }

  lemma TextsSnoc(groups: seq<Group>, k: nat)
    requires 0 < k <= |groups|
    ensures Texts(groups, k) == Texts(groups, k - 1) + [Text(groups[k - 1])]
  {
    hide Text;
  }

  lemma {:induction false} AllKept(groups: seq<Group>, k: nat)
    requires k <= |groups| && forall i :: 0 <= i < |groups| ==> |Text(groups[i])| >= MIN_CHUNK_CHARS
    ensures Kept(groups, k) == Texts(groups, k)
  {
    if k > 0 {
      TextsSnoc(groups, k);
      hide Text, Texts;
      AllKept(groups, k - 1);
    }
  }

  lemma TextHoldsUnit(g: Group)
    requires g.units != []
    ensures |Text(g)| >= |g.units[|g.units| - 1]|
  {
  }

  lemma {:induction false} UnitInFlat(groups: seq<Group>, k: nat, i: nat, u: string)
    requires i < k <= |groups| && u in groups[i].units
    ensures u in Flat(groups, k)
  {
    if i < k - 1 {
      UnitInFlat(groups, k - 1, i, u);
    }
  }

  /** If no group were dropped as too short, the chunks alone would give any units back: without their overlaps
      they join to exactly the units in order. */
  lemma {:induction false} TextsRestoreUnits(groups: seq<Group>, overlap: nat)
    requires Linked(groups, overlap)
    ensures Restored(Texts(groups, |groups|), overlap) == Join(Flat(groups, |groups|))
  {
    var chunks := Texts(groups, |groups|);
    var bodies := Bodies(chunks, overlap);
    hide *;
    forall i | 0 <= i < |groups|
      ensures bodies[i] == Join(groups[i].units)
    {
      BodyAt(groups, chunks, overlap, i);
    }
    assert bodies[..|groups|] == bodies;
    JoinOfBodies(groups, bodies, |groups|);
  }

  /** That is so when every unit has the minimum length, whatever it ends in. */
  lemma {:induction false} LongUnitsAreRestored(limit: nat, overlap: nat, units: seq<string>)
    requires forall u :: u in units ==> |u| >= MIN_CHUNK_CHARS
    ensures Restored(Chunks(limit, overlap, units), overlap) == Join(units)
  {
    var groups := Groups(limit, overlap, units);
    GroupsPartitionUnits(limit, overlap, units);
    forall i | 0 <= i < |groups|
      ensures |Text(groups[i])| >= MIN_CHUNK_CHARS
    {
      var g := groups[i];
      TextHoldsUnit(g);
      UnitInFlat(groups, |groups|, i, g.units[|g.units| - 1]);
    }
    AllKept(groups, |groups|);
    TextsRestoreUnits(groups, overlap);
  }

  // ---------------------------------------------------------------- overlaps of text that ends in ink

  ghost predicate InkGroups(groups: seq<Group>, overlap: nat) {
    Linked(groups, overlap) && forall i :: 0 <= i < |groups| ==> AllEndInInk(groups[i].units)
  }

  lemma InkOfEnd(s: string)
    requires EndsInInk(s)
    ensures Ink(s) != ""
  {
    var n := |s| - 1;
    InkConcat(s[..n], s[n..]);
    assert s == s[..n] + s[n..];
    assert Ink(s[n..]) == [s[n]];
  }

  lemma InkSurvives(s: string)
    requires EndsInInk(s)
    ensures Strip(s) != ""
  {
    InkOfEnd(s);
    StripKeepsInk(s);
    assert Ink("") == "";
  }

  lemma JoinEnds(parts: seq<string>)
    requires parts != [] && EndsInInk(parts[|parts| - 1])
    ensures EndsInInk(Join(parts))
  {
  }

  lemma TextOfGroup(g: Group)
    requires g.units != [] && AllEndInInk(g.units)
    ensures Text(g) == (if g.lead == "" then "" else g.lead + "\n\n") + Join(g.units)
    ensures EndsInInk(Text(g)) && EndsInInk(Join(g.units))
  {
    JoinEnds(g.units);
    JoinEnds(Parts(g));
    if g.lead != "" {
      JoinConcat([g.lead], g.units);
    }
  }

  // The overlap of such a text: its last characters, all of it if it is no longer than that.
  lemma LeadOfInk(chunk: string, overlap: nat)
    requires EndsInInk(chunk)
    ensures var lead := LeadAfter(chunk, overlap);
      && |lead| == (if overlap < |chunk| then overlap else |chunk|)
      && (|chunk| <= overlap ==> lead == chunk)
  {
    var tail := Tail(chunk, overlap);
    if overlap > 0 {
      assert tail[|tail| - 1] == chunk[|chunk| - 1];
      InkSurvives(tail);
    }
    hide Strip;
  }

  // How much is taken off the chunk behind chunk p.
  function Off(p: string, overlap: nat): nat {
    if LeadAfter(p, overlap) == "" then 0 else |LeadAfter(p, overlap)| + 2
  }

  lemma GroupFacts(groups: seq<Group>, overlap: nat, i: nat)
    requires InkGroups(groups, overlap) && i < |groups|
    ensures var g, body := groups[i], Join(groups[i].units);
      && EndsInInk(Text(g)) && body != "" && (i == 0 ==> Text(g) == body)
      && (i > 0 ==> var lead := LeadAfter(Text(groups[i - 1]), overlap);
           Text(g) == (if lead == "" then "" else lead + "\n\n") + body)
  {
    assert groups[i].lead == LeadAt(groups, overlap, i);
    TextOfGroup(groups[i]);
    hide Join, Text, LeadAfter;
  }

  lemma GroupLength(groups: seq<Group>, overlap: nat, i: nat)
    requires InkGroups(groups, overlap) && 0 < i < |groups|
    ensures |Text(groups[i])| == Off(Text(groups[i - 1]), overlap) + |Join(groups[i].units)|
    ensures 0 < |Join(groups[i].units)|
  {
    hide Text, InkGroups, Join, LeadAfter;
    GroupFacts(groups, overlap, i);
  }

  // Overlaps never get shorter from group to group.
  lemma {:induction false} LeadsGrow(groups: seq<Group>, overlap: nat, j: nat, i: nat)
    requires InkGroups(groups, overlap) && j <= i < |groups|
    ensures |LeadAfter(Text(groups[j]), overlap)| <= |LeadAfter(Text(groups[i]), overlap)|
  {
    hide LeadAfter, Text, InkGroups, Join;
    if j < i {
      LeadsGrow(groups, overlap, j, i - 1);
      GroupFacts(groups, overlap, i - 1);
      GroupFacts(groups, overlap, i);
      LeadOfInk(Text(groups[i - 1]), overlap);
      LeadOfInk(Text(groups[i]), overlap);
    }
  }

  // ---------------------------------------------------------------- restoring step by step

  lemma {:induction false} RestoredSnoc(chunks: seq<string>, x: string, overlap: nat)
    ensures Restored(chunks + [x], overlap)
      == if chunks == [] then x else Restored(chunks, overlap) + "\n\n" + Body(chunks[|chunks| - 1], x, overlap)
  {
    var more := Bodies(chunks + [x], overlap);
    hide Body;
    if chunks != [] {
      assert more[..|chunks|] == Bodies(chunks, overlap);
    }
  }

  lemma BodyIsRest(p: string, x: string, overlap: nat)
    requires Off(p, overlap) <= |x|
    ensures Body(p, x, overlap) == x[Off(p, overlap)..]
  {
    hide LeadAfter;
  }

  function Before(chunks: seq<string>, overlap: nat): string {
    if chunks == [] then "" else Restored(chunks, overlap) + "\n\n"
  }

  function OffLast(chunks: seq<string>, overlap: nat): nat {
    if chunks == [] then 0 else Off(chunks[|chunks| - 1], overlap)
  }

  // What is restored with x as the last chunk.
  function With(chunks: seq<string>, x: string, overlap: nat): string {
    Restored(chunks + [x], overlap)
  }

  function Glue(a: string, b: string): string {
    a + ("\n\n" + b)
  }

  lemma RestoredWith(chunks: seq<string>, x: string, overlap: nat)
    requires OffLast(chunks, overlap) <= |x|
    ensures With(chunks, x, overlap) == Before(chunks, overlap) + x[OffLast(chunks, overlap)..]
  {
    RestoredSnoc(chunks, x, overlap);
    if chunks != [] {
      BodyIsRest(chunks[|chunks| - 1], x, overlap);
    }
    hide Off, Restored, Body;
  }

  // With another last chunk the restored text differs by as much.
  lemma SwapLength(chunks: seq<string>, x: string, y: string, overlap: nat)
    requires OffLast(chunks, overlap) <= |x| && OffLast(chunks, overlap) <= |y|
    ensures |With(chunks, y, overlap)| == |With(chunks, x, overlap)| + |y| - |x|
  {
    RestoredWith(chunks, x, overlap);
    RestoredWith(chunks, y, overlap);
    hide OffLast, Before, With;
  }

  lemma AppendBehind(front: string, x: string, z: string, off: nat)
    requires off <= |x|
    ensures front + (x + z)[off..] == front + x[off..] + z
  {
    assert (x + z)[off..] == x[off..] + z;
  }

  lemma AppendToLast(chunks: seq<string>, x: string, z: string, overlap: nat)
    requires OffLast(chunks, overlap) <= |x|
    ensures With(chunks, x + z, overlap) == With(chunks, x, overlap) + z
  {
    hide OffLast, Before, With;
    RestoredWith(chunks, x, overlap);
    RestoredWith(chunks, x + z, overlap);
    AppendBehind(Before(chunks, overlap), x, z, OffLast(chunks, overlap));
  }

  // What the first k chunks would restore if the last of them were kept whatever its length.
  function RestoredTo(groups: seq<Group>, overlap: nat, k: nat): string
    requires 0 < k <= |groups|
  {
    With(Kept(groups, k - 1), Text(groups[k - 1]), overlap)
  }

  // A group that is kept, or carried whole by the one behind it.
  predicate Carried(g: Group, overlap: nat) {
    |Text(g)| >= MIN_CHUNK_CHARS || |Text(g)| <= overlap
  }

  lemma {:induction false} LastKept(groups: seq<Group>, k: nat) returns (j: nat)
    requires k <= |groups| && Kept(groups, k) != []
    ensures j < k && |Text(groups[j])| >= MIN_CHUNK_CHARS
    ensures Kept(groups, k)[|Kept(groups, k)| - 1] == Text(groups[j])
  {
    hide Text;
    if |Text(groups[k - 1])| >= MIN_CHUNK_CHARS {
      j := k - 1;
    } else {
      j := LastKept(groups, k - 1);
    }
  }

  // Behind any earlier chunk there is at least that much to take off.
  lemma EnoughToTakeOff(groups: seq<Group>, overlap: nat, j: nat, i: nat)
    requires InkGroups(groups, overlap) && j < i < |groups|
    ensures Off(Text(groups[j]), overlap) <= |Text(groups[i])|
  {
    hide LeadAfter, Text, InkGroups, Join;
    LeadsGrow(groups, overlap, j, i - 1);
    GroupFacts(groups, overlap, i);
  }

  lemma KeptStep(groups: seq<Group>, overlap: nat, k: nat)
    requires InkGroups(groups, overlap) && 0 < k < |groups| && |Text(groups[k - 1])| >= MIN_CHUNK_CHARS
    ensures RestoredTo(groups, overlap, k + 1) == Glue(RestoredTo(groups, overlap, k), Join(groups[k].units))
  {
    var chunks := Kept(groups, k);
    assert chunks == Kept(groups, k - 1) + [Text(groups[k - 1])];
    assert groups[k].lead == LeadAt(groups, overlap, k);
    BodyOfText(groups[k - 1], groups[k], overlap);
    hide Text, Body, Restored, Kept, Join;
    RestoredSnoc(chunks, Text(groups[k]), overlap);
  }

  lemma DroppedFacts(groups: seq<Group>, overlap: nat, k: nat)
    requires InkGroups(groups, overlap) && 0 < k < |groups| && |Text(groups[k - 1])| < MIN_CHUNK_CHARS
    ensures var chunks := Kept(groups, k - 1);
      && Kept(groups, k) == chunks
      && OffLast(chunks, overlap) <= |Text(groups[k - 1])| && OffLast(chunks, overlap) <= |Text(groups[k])|
  {
    hide Text, InkGroups, Join, LeadAfter, Restored, Off;
    if Kept(groups, k - 1) != [] {
      var j := LastKept(groups, k - 1);
      EnoughToTakeOff(groups, overlap, j, k - 1);
      EnoughToTakeOff(groups, overlap, j, k);
    }
  }

  lemma CarriedStep(groups: seq<Group>, overlap: nat, k: nat)
    requires InkGroups(groups, overlap) && 0 < k < |groups|
    requires |Text(groups[k - 1])| < MIN_CHUNK_CHARS && |Text(groups[k - 1])| <= overlap
    ensures RestoredTo(groups, overlap, k + 1) == Glue(RestoredTo(groups, overlap, k), Join(groups[k].units))
  {
    DroppedFacts(groups, overlap, k);
    hide Text, InkGroups, Join, LeadAfter, With, Kept, OffLast;
    var x, body := Text(groups[k - 1]), Join(groups[k].units);
    GroupFacts(groups, overlap, k - 1);
    GroupFacts(groups, overlap, k);
    LeadOfInk(x, overlap);
    Assoc(x, "\n\n", body);
    AppendToLast(Kept(groups, k - 1), x, "\n\n" + body, overlap);
  }

  lemma LostStep(groups: seq<Group>, overlap: nat, k: nat)
    requires InkGroups(groups, overlap) && 0 < k < |groups| && !Carried(groups[k - 1], overlap)
    ensures |RestoredTo(groups, overlap, k + 1)| < |RestoredTo(groups, overlap, k)| + 2 + |Join(groups[k].units)|
  {
    hide Text, InkGroups, Join, Kept, OffLast, With;
    LostLength(groups, overlap, k);
    DroppedFacts(groups, overlap, k);
    SwapLength(Kept(groups, k - 1), Text(groups[k - 1]), Text(groups[k]), overlap);
  }

  lemma LostLength(groups: seq<Group>, overlap: nat, k: nat)
    requires InkGroups(groups, overlap) && 0 < k < |groups| && !Carried(groups[k - 1], overlap)
    ensures |Text(groups[k])| < |Text(groups[k - 1])| + 2 + |Join(groups[k].units)|
    ensures |Text(groups[k - 1])| < MIN_CHUNK_CHARS
  {
    hide Text, InkGroups, Join, LeadAfter;
    GroupFacts(groups, overlap, k - 1);
    GroupLength(groups, overlap, k);
    LeadOfInk(Text(groups[k - 1]), overlap);
  }

  lemma FlatGrows(groups: seq<Group>, overlap: nat, k: nat)
    requires InkGroups(groups, overlap) && 0 < k < |groups|
    ensures Join(Flat(groups, k + 1)) == Glue(Join(Flat(groups, k)), Join(groups[k].units))
  {
    FlatNonEmpty(groups, k);
    JoinConcat(Flat(groups, k), groups[k].units);
    hide Join;
  }

  ghost predicate AllCarried(groups: seq<Group>, overlap: nat, k: nat)
    requires k <= |groups|
  {
    forall i :: 0 <= i < k ==> Carried(groups[i], overlap)
  }

  lemma FirstIsRestored(groups: seq<Group>, overlap: nat)
    requires InkGroups(groups, overlap) && groups != []
    ensures Tracks(RestoredTo(groups, overlap, 1), Join(Flat(groups, 1)), AllCarried(groups, overlap, 0))
  {
    GroupFacts(groups, overlap, 0);
    assert Flat(groups, 0) == [] && [] + groups[0].units == groups[0].units;
    hide Join, Text, InkGroups, Restored;
    assert Kept(groups, 0) == [];
    RestoredSnoc([], Text(groups[0]), overlap);
  }

  // All that was put in, or less.
  predicate Tracks(restored: string, all: string, carried: bool) {
    if carried then restored == all else |restored| < |all|
  }

  predicate Grows(before: string, after: string, body: string, carried: bool) {
    if carried then after == Glue(before, body) else |after| < |before| + 2 + |body|
  }

  lemma CarriedSnoc(groups: seq<Group>, overlap: nat, k: nat)
    requires k < |groups|
    ensures AllCarried(groups, overlap, k + 1) <==> AllCarried(groups, overlap, k) && Carried(groups[k], overlap)
  {
    hide Carried;
  }

  lemma Accumulate(before: string, after: string, all: string, body: string, carried: bool, now: bool)
    requires Tracks(before, all, carried) && Grows(before, after, body, now)
    ensures Tracks(after, Glue(all, body), carried && now)
  {
  }

  lemma {:induction false} RestoredSoFar(groups: seq<Group>, overlap: nat, k: nat)
    requires InkGroups(groups, overlap) && 0 < k <= |groups|
    ensures Tracks(RestoredTo(groups, overlap, k), Join(Flat(groups, k)), AllCarried(groups, overlap, k - 1))
  {
    hide Text, InkGroups, Join, RestoredTo, Flat, Carried, AllCarried, Tracks, Grows, Glue;
    if k == 1 {
      FirstIsRestored(groups, overlap);
    } else {
      RestoredSoFar(groups, overlap, k - 1);
      FlatGrows(groups, overlap, k - 1);
      StepCases(groups, overlap, k - 1);
      CarriedSnoc(groups, overlap, k - 2);
      Accumulate(RestoredTo(groups, overlap, k - 1), RestoredTo(groups, overlap, k), Join(Flat(groups, k - 1)),
                 Join(groups[k - 1].units), AllCarried(groups, overlap, k - 2), Carried(groups[k - 2], overlap));
    }
  }

  lemma StepCases(groups: seq<Group>, overlap: nat, k: nat)
    requires InkGroups(groups, overlap) && 0 < k < |groups|
    ensures Grows(RestoredTo(groups, overlap, k), RestoredTo(groups, overlap, k + 1), Join(groups[k].units),
                  Carried(groups[k - 1], overlap))
  {
    hide Text, InkGroups, Join, RestoredTo;
    if |Text(groups[k - 1])| >= MIN_CHUNK_CHARS {
      KeptStep(groups, overlap, k);
    } else if |Text(groups[k - 1])| <= overlap {
      CarriedStep(groups, overlap, k);
    } else {
      LostStep(groups, overlap, k);
    }
  }

  // ---------------------------------------------------------------- main results

  // Every group is kept, or has one behind it that carries it whole.
  ghost predicate Restorable(groups: seq<Group>, overlap: nat) {
    forall i :: 0 <= i < |groups| ==>
      |Text(groups[i])| >= MIN_CHUNK_CHARS || (i + 1 < |groups| && |Text(groups[i])| <= overlap)
  }

  // What is restored without the last group is shorter than with it.
  lemma LastCounts(groups: seq<Group>, overlap: nat)
    requires InkGroups(groups, overlap) && groups != [] && |Text(groups[|groups| - 1])| < MIN_CHUNK_CHARS
    ensures Kept(groups, |groups|) == Kept(groups, |groups| - 1)
    ensures |Restored(Kept(groups, |groups|), overlap)| < |RestoredTo(groups, overlap, |groups|)|
  {
    var n := |groups| - 1;
    var chunks := Kept(groups, n);
    assert Restored([], overlap) == "";
    hide Text, InkGroups, Join, LeadAfter, Restored, Off;
    if chunks != [] {
      var j := LastKept(groups, n);
      EnoughToTakeOff(groups, overlap, j, n);
    }
    GroupFacts(groups, overlap, n);
    RestoredWith(chunks, Text(groups[n]), overlap);
  }

  lemma RestoredIffCarried(groups: seq<Group>, overlap: nat)
    requires InkGroups(groups, overlap)
    ensures Restored(Kept(groups, |groups|), overlap) == Join(Flat(groups, |groups|)) <==> Restorable(groups, overlap)
  {
    var n := |groups|;
    hide Text, InkGroups, Join, Restored, AllCarried, Restorable, Flat, RestoredTo, Kept;
    RestorableCases(groups, overlap);
    if n == 0 {
      NothingToRestore(groups, overlap);
    } else {
      RestoredSoFar(groups, overlap, n);
      if |Text(groups[n - 1])| < MIN_CHUNK_CHARS {
        LastCounts(groups, overlap);
      } else {
        AllIsRestored(groups, overlap, n);
      }
    }
  }

  ghost predicate LastKeptRestCarried(groups: seq<Group>, overlap: nat)
    requires groups != []
  {
    AllCarried(groups, overlap, |groups| - 1) && |Text(groups[|groups| - 1])| >= MIN_CHUNK_CHARS
  }

  lemma RestorableCases(groups: seq<Group>, overlap: nat)
    ensures var n := |groups|;
      Restorable(groups, overlap) <==> n == 0 || LastKeptRestCarried(groups, overlap)
  {
    hide Text;
  }

  lemma NothingToRestore(groups: seq<Group>, overlap: nat)
    requires groups == []
    ensures Restored(Kept(groups, 0), overlap) == "" == Join(Flat(groups, 0))
  {
  }

  lemma {:induction false} FlatEnds(groups: seq<Group>, k: nat, i: nat)
    requires i < k <= |groups| && AllEndInInk(Flat(groups, k))
    ensures AllEndInInk(groups[i].units)
  {
    hide EndsInInk;
    var front, last := Flat(groups, k - 1), groups[k - 1].units;
    assert forall j :: 0 <= j < |front| ==> (front + last)[j] == front[j];
    assert forall j :: 0 <= j < |last| ==> (front + last)[|front| + j] == last[j];
    if i < k - 1 {
      FlatEnds(groups, k - 1, i);
    }
  }

  lemma GroupsEnd(limit: nat, overlap: nat, units: seq<string>)
    requires AllEndInInk(units)
    ensures var groups := Groups(limit, overlap, units);
      InkGroups(groups, overlap) && Flat(groups, |groups|) == units
  {
    var groups := Groups(limit, overlap, units);
    hide Groups, AllEndInInk, Linked;
    GroupsPartitionUnits(limit, overlap, units);
    forall i | 0 <= i < |groups|
      ensures AllEndInInk(groups[i].units)
    {
      FlatEnds(groups, |groups|, i);
    }
  }

  /** For units as a text has them, the chunks alone give back exactly the units in order, nothing lost,
      repeated or moved, if and only if every group that is too short to be kept has one behind it that
      carries it whole. */
  lemma {:induction false} ChunksRestoreUnits(limit: nat, overlap: nat, units: seq<string>)
    requires AllEndInInk(units)
    ensures Restored(Chunks(limit, overlap, units), overlap) == Join(units)
      <==> Restorable(Groups(limit, overlap, units), overlap)
  {
    hide Groups, Restored, Restorable, InkGroups, Join, Kept;
    GroupsEnd(limit, overlap, units);
    RestoredIffCarried(Groups(limit, overlap, units), overlap);
  }

  lemma {:induction false} JoinAtLeast(parts: seq<string>)
    requires parts != []
    ensures |Join(parts)| >= |parts[0]|
  {
    if |parts| > 1 {
      JoinAtLeast(parts[..|parts| - 1]);
    }
  }

  lemma {:induction false} KeptAreLong(groups: seq<Group>, k: nat)
    requires k <= |groups|
    ensures forall i :: 0 <= i < |Kept(groups, k)| ==> |Kept(groups, k)[i]| >= MIN_CHUNK_CHARS
  {
    hide Text;
    if k > 0 {
      KeptAreLong(groups, k - 1);
    }
  }

  lemma RestoredIsLong(groups: seq<Group>, overlap: nat, k: nat)
    requires k <= |groups| && Kept(groups, k) != []
    ensures |Restored(Kept(groups, k), overlap)| >= MIN_CHUNK_CHARS
  {
    var chunks := Kept(groups, k);
    KeptAreLong(groups, k);
    hide Text, Body, Join, Kept;
    JoinAtLeast(Bodies(chunks, overlap));
  }

  // With such an overlap nothing is too short behind a chunk that was kept.
  lemma ShortOnlyInFront(groups: seq<Group>, overlap: nat, k: nat)
    requires InkGroups(groups, overlap) && overlap >= MIN_CHUNK_CHARS - 1
    requires k < |groups| && |Text(groups[k])| < MIN_CHUNK_CHARS
    ensures Kept(groups, k) == []
  {
    hide Text, InkGroups, LeadAfter;
    if Kept(groups, k) != [] {
      var j := LastKept(groups, k);
      EnoughToTakeOff(groups, overlap, j, k);
      GroupFacts(groups, overlap, j);
      LeadOfInk(Text(groups[j]), overlap);
      assert false;
    }
  }

  lemma AllRestored(groups: seq<Group>, overlap: nat)
    requires InkGroups(groups, overlap) && overlap >= MIN_CHUNK_CHARS - 1 && groups != []
    ensures RestoredTo(groups, overlap, |groups|) == Join(Flat(groups, |groups|))
  {
    hide Text, InkGroups, Join, RestoredTo;
    RestoredSoFar(groups, overlap, |groups|);
  }

  lemma LongIffLastIsKept(groups: seq<Group>, overlap: nat)
    requires InkGroups(groups, overlap) && overlap >= MIN_CHUNK_CHARS - 1 && groups != []
    ensures var last, all := Text(groups[|groups| - 1]), Join(Flat(groups, |groups|));
      && (|last| >= MIN_CHUNK_CHARS <==> |all| >= MIN_CHUNK_CHARS)
      && (|last| < MIN_CHUNK_CHARS ==> Kept(groups, |groups|) == [])
  {
    var n := |groups|;
    hide Text, InkGroups, Join, Restored, AllCarried, Flat, RestoredTo, Kept;
    AllRestored(groups, overlap);
    if |Text(groups[n - 1])| < MIN_CHUNK_CHARS {
      ShortOnlyInFront(groups, overlap, n - 1);
      AloneIsItself(groups, overlap, n);
      LastCounts(groups, overlap);
    } else {
      LastIsThere(groups);
      AllIsRestored(groups, overlap, n);
      RestoredIsLong(groups, overlap, n);
    }
  }

  lemma AloneIsItself(groups: seq<Group>, overlap: nat, k: nat)
    requires 0 < k <= |groups| && Kept(groups, k - 1) == []
    ensures RestoredTo(groups, overlap, k) == Text(groups[k - 1])
  {
    hide Text, Restored, Kept;
    RestoredSnoc([], Text(groups[k - 1]), overlap);
  }

  lemma AllIsRestored(groups: seq<Group>, overlap: nat, k: nat)
    requires 0 < k <= |groups| && |Text(groups[k - 1])| >= MIN_CHUNK_CHARS
    ensures RestoredTo(groups, overlap, k) == Restored(Kept(groups, k), overlap)
  {
    hide Text, Restored;
  }

  /** For every overlap of seven characters or more, whatever the lengths of the units: they are restored if
      and only if there are none or they join to at least the minimum length, and otherwise no chunk is left. */
  lemma {:induction false} LargeOverlapRestoresUnits(limit: nat, overlap: nat, units: seq<string>)
    requires AllEndInInk(units) && overlap >= MIN_CHUNK_CHARS - 1
    ensures (Restored(Chunks(limit, overlap, units), overlap) == Join(units))
      <==> (units == [] || |Join(units)| >= MIN_CHUNK_CHARS)
    ensures Chunks(limit, overlap, units) == [] <==> |Join(units)| < MIN_CHUNK_CHARS
  {
    var groups := Groups(limit, overlap, units);
    var n := |groups|;
    GroupsEnd(limit, overlap, units);
    RestoredIffCarried(groups, overlap);
    assert Restorable(groups, overlap) <==> n == 0 || |Text(groups[n - 1])| >= MIN_CHUNK_CHARS;
    hide Groups, Restored, Restorable, InkGroups, Text;
    if n > 0 {
      LongIffLastIsKept(groups, overlap);
      LastIsThere(groups);
    }
  }

  lemma LastIsThere(groups: seq<Group>)
    requires groups != []
    ensures |Text(groups[|groups| - 1])| >= MIN_CHUNK_CHARS ==> Kept(groups, |groups|) != []
  {
    hide Text;
  }

  lemma {:induction false} InkOfJoin(parts: seq<string>)
    ensures Ink(Join(parts)) == InkAll(parts)
  {
    if |parts| == 1 {
      InkAllSnoc([], parts[0]);
      assert [] + [parts[0]] == parts;
    } else if |parts| > 1 {
      var n := |parts| - 1;
      InkOfJoin(parts[..n]);
      assert Ink("\n\n") == Ink("\n") == "";
      hide Ink, InkAll;
      InkConcat(Join(parts[..n]) + "\n\n", parts[n]);
      InkConcat(Join(parts[..n]), "\n\n");
      InkAllSnoc(parts[..n], parts[n]);
      assert parts == parts[..n] + [parts[n]];
    }
  }

  /** From text to chunks and back, for every text: with an overlap of seven characters or more, as the default
      is, the restored text has exactly the characters of the original, white space aside, if and only if
      the text has no unit or its units join to at least eight characters; with any overlap, whenever its
      groups are restorable. */
  lemma {:induction false} ChunksHoldTheText(text: string, limit: nat, overlap: nat)
    ensures var units := Units(limit, text);
      var restored := Restored(Chunks(limit, overlap, units), overlap);
      && (Restorable(Groups(limit, overlap, units), overlap) ==> Ink(restored) == Ink(text))
      && (overlap >= MIN_CHUNK_CHARS - 1 ==>
           (Ink(restored) == Ink(text) <==> units == [] || |Join(units)| >= MIN_CHUNK_CHARS))
  {
    var units := Units(limit, text);
    UnitsEndInInk(limit, text);
    UnitsHoldTheText(limit, text);
    InkOfJoin(units);
    assert Restored([], overlap) == "" && Ink("") == "";
    if units != [] {
      JoinEnds(units);
      InkOfEnd(Join(units));
    }
    hide Ink, Units, Restored, Restorable, Chunks, Groups, Join, AllEndInInk;
    ChunksRestoreUnits(limit, overlap, units);
    if overlap >= MIN_CHUNK_CHARS - 1 {
      LargeOverlapRestoresUnits(limit, overlap, units);
    }
  }
}
