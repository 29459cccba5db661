/** chunk_text, second half: pack the units greedily into overlapping chunks. */
module Ingestor {
  import opened TextUnits

  const CHARS_PER_TOKEN := 4
  const MIN_CHUNK_CHARS := 8

  // ---------------------------------------------------------------- chunks

  // "\n\n".join
  function Join(parts: seq<string>): string {
    if parts == [] then ""
    else if |parts| == 1 then parts[0]
    else Join(parts[..|parts| - 1]) + "\n\n" + parts[|parts| - 1]
  }

  // lead: the overlap text that a chunk starts with, "" for none.
  datatype Group = Group(lead: string, units: seq<string>)

  function Parts(g: Group): seq<string> {
    if g.lead == "" then g.units else [g.lead] + g.units
  }

  function Text(g: Group): string {
    Join(Parts(g))
  }

  // chunk[-overlap:] if overlap else ""
  function Tail(chunk: string, overlap: nat): string {
    if overlap == 0 then "" else if overlap < |chunk| then chunk[|chunk| - overlap..] else chunk
  }

  function LeadAfter(chunk: string, overlap: nat): string {
    if Strip(Tail(chunk, overlap)) == "" then "" else Tail(chunk, overlap)
  }

  // Groups flushed so far, the open one, and current_len.
  datatype Chunking = Chunking(done: seq<Group>, open: Group, len: nat)

  // One turn of the packing loop.
  function AddUnit(limit: nat, overlap: nat, c: Chunking, unit: string): Chunking {
    if c.len + |unit| + 1 > limit && Parts(c.open) != [] then
      var chunk := Text(c.open);
      Chunking(c.done + [c.open], Group(LeadAfter(chunk, overlap), [unit]), |Tail(chunk, overlap)| + |unit| + 2)
    else
      Chunking(c.done, Group(c.open.lead, c.open.units + [unit]), c.len + |unit| + 2)
  }

  function AddUnits(limit: nat, overlap: nat, units: seq<string>, k: nat): Chunking
    requires k <= |units|
  {
    if k == 0 then Chunking([], Group("", []), 0)
    else AddUnit(limit, overlap, AddUnits(limit, overlap, units, k - 1), units[k - 1])
  }

  function Groups(limit: nat, overlap: nat, units: seq<string>): seq<Group> {
    var c := AddUnits(limit, overlap, units, |units|);
    if Parts(c.open) == [] then c.done else c.done + [c.open]
  }

  // The texts of the first k groups that are long enough to keep.
  function Kept(groups: seq<Group>, k: nat): seq<string>
    requires k <= |groups|
  {
    if k == 0 then []
    else if |Text(groups[k - 1])| >= MIN_CHUNK_CHARS then Kept(groups, k - 1) + [Text(groups[k - 1])]
    else Kept(groups, k - 1)
  }

  function Chunks(limit: nat, overlap: nat, units: seq<string>): seq<string> {
    var groups := Groups(limit, overlap, units);
    Kept(groups, |groups|)
  }

  lemma {:induction false} KeptPrefix(groups: seq<Group>, g: Group, k: nat)
    requires k <= |groups|
    ensures Kept(groups + [g], k) == Kept(groups, k)
  {
    if k > 0 {
      KeptPrefix(groups, g, k - 1);
    }
  }

  lemma KeptSnoc(groups: seq<Group>, g: Group)
    ensures Kept(groups + [g], |groups| + 1)
      == if |Text(g)| >= MIN_CHUNK_CHARS then Kept(groups, |groups|) + [Text(g)] else Kept(groups, |groups|)
  {
    KeptPrefix(groups, g, |groups|);
  }

  // The two list variables of the loop after one turn.
  lemma AddUnitParts(limit: nat, overlap: nat, c: Chunking, unit: string)
    ensures var c', tail := AddUnit(limit, overlap, c, unit), Tail(Join(Parts(c.open)), overlap);
      if c.len + |unit| + 1 > limit && Parts(c.open) != [] then
        && c'.done == c.done + [c.open] && c'.len == |tail| + |unit| + 2
        && Parts(c'.open) == (if Strip(tail) != "" then [tail] else []) + [unit]
      else
        c'.done == c.done && c'.len == c.len + |unit| + 2 && Parts(c'.open) == Parts(c.open) + [unit]
  {
    assert Strip("") == "";
    hide Join, Strip, Tail;
    if c.len + |unit| + 1 > limit && Parts(c.open) != [] {
      assert [] + [unit] == [unit];
    } else {
      assert [c.open.lead] + (c.open.units + [unit]) == [c.open.lead] + c.open.units + [unit];
    }
  }

  lemma ChunksAreKept(limit: nat, overlap: nat, units: seq<string>)
    ensures var c := AddUnits(limit, overlap, units, |units|);
      Chunks(limit, overlap, units)
        == if Parts(c.open) != [] && |Text(c.open)| >= MIN_CHUNK_CHARS then Kept(c.done, |c.done|) + [Text(c.open)]
           else Kept(c.done, |c.done|)
  {
    var c := AddUnits(limit, overlap, units, |units|);
    hide Text, AddUnits, Kept;
    KeptSnoc(c.done, c.open);
  }

  // The loop's variables, seen from the abstract state.
  ghost predicate Mirrors(c: Chunking, chunks: seq<string>, currentChars: seq<string>, currentLen: nat) {
    chunks == Kept(c.done, |c.done|) && currentChars == Parts(c.open) && currentLen == c.len
  }

  // What one turn does to the loop's variables.
  ghost predicate Turned(limit: nat, overlap: nat, unit: string,
                         chunks: seq<string>, currentChars: seq<string>, currentLen: nat,
                         chunks': seq<string>, currentChars': seq<string>, currentLen': nat) {
    var chunk, tail := Join(currentChars), Tail(Join(currentChars), overlap);
    if currentLen + |unit| + 1 > limit && currentChars != [] then
      && chunks' == (if |chunk| >= MIN_CHUNK_CHARS then chunks + [chunk] else chunks)
      && currentChars' == (if Strip(tail) != "" then [tail] else []) + [unit]
      && currentLen' == |tail| + |unit| + 2
    else
      chunks' == chunks && currentChars' == currentChars + [unit] && currentLen' == currentLen + |unit| + 2
  }

  lemma MirrorsTurn(limit: nat, overlap: nat, units: seq<string>, k: nat,
                    chunks: seq<string>, currentChars: seq<string>, currentLen: nat,
                    chunks': seq<string>, currentChars': seq<string>, currentLen': nat)
    requires k < |units| && Mirrors(AddUnits(limit, overlap, units, k), chunks, currentChars, currentLen)
    requires Turned(limit, overlap, units[k], chunks, currentChars, currentLen, chunks', currentChars', currentLen')
    ensures Mirrors(AddUnits(limit, overlap, units, k + 1), chunks', currentChars', currentLen')
  {
    hide Join, Strip, Tail, AddUnit, Parts, Kept;
    var c := AddUnits(limit, overlap, units, k);
    AddUnitParts(limit, overlap, c, units[k]);
    KeptSnoc(c.done, c.open);
  }

  // The chunks once the last one is closed.
  function Flushed(chunks: seq<string>, currentChars: seq<string>): seq<string> {
    if currentChars != [] && |Join(currentChars)| >= MIN_CHUNK_CHARS then chunks + [Join(currentChars)] else chunks
  }

  lemma MirrorsEnd(limit: nat, overlap: nat, units: seq<string>,
                   chunks: seq<string>, currentChars: seq<string>, currentLen: nat)
    requires Mirrors(AddUnits(limit, overlap, units, |units|), chunks, currentChars, currentLen)
    ensures Chunks(limit, overlap, units) == Flushed(chunks, currentChars)
  {
    hide Join, AddUnits, Kept, Chunks;
    ChunksAreKept(limit, overlap, units);
  }

  lemma MirrorsStart(limit: nat, overlap: nat, units: seq<string>)
    ensures Mirrors(AddUnits(limit, overlap, units, 0), [], [], 0)
  {
  }

  method PackChunks(limit: nat, overlap: nat, units: seq<string>) returns (chunks: seq<string>)
    ensures chunks == Chunks(limit, overlap, units)
  {
    hide Join, Strip, Tail, Mirrors, AddUnits, Chunks;
    chunks := [];
    var currentChars: seq<string> := [];
    var currentLen: nat := 0;
    MirrorsStart(limit, overlap, units);
    for k := 0 to |units|
      invariant Mirrors(AddUnits(limit, overlap, units, k), chunks, currentChars, currentLen)
    {
      var unit := units[k];
      ghost var chunks0, chars0, len0 := chunks, currentChars, currentLen;
      if currentLen + |unit| + 1 > limit && currentChars != [] {
        var chunk := Join(currentChars);
        if |chunk| >= MIN_CHUNK_CHARS {
          chunks := chunks + [chunk];
        }
        var overlapText := Tail(chunk, overlap);
        currentChars := if Strip(overlapText) != "" then [overlapText] else [];
        currentLen := |overlapText|;
      }
      currentChars := currentChars + [unit];
      currentLen := currentLen + |unit| + 2;
      MirrorsTurn(limit, overlap, units, k, chunks0, chars0, len0, chunks, currentChars, currentLen);
    }
    MirrorsEnd(limit, overlap, units, chunks, currentChars, currentLen);
    if currentChars != [] {
      var chunk := Join(currentChars);
      if |chunk| >= MIN_CHUNK_CHARS {
        chunks := chunks + [chunk];
      }
    }
  }

  lemma NothingToPack(limit: nat, overlap: nat)
    ensures Chunks(limit, overlap, []) == []
  {
    assert AddUnits(limit, overlap, [], 0) == Chunking([], Group("", []), 0);
  }

  method ChunkText(text: string, chunkSize: nat, overlap: nat) returns (chunks: seq<string>)
    ensures chunks == Chunks(chunkSize * CHARS_PER_TOKEN, overlap * CHARS_PER_TOKEN,
      Units(chunkSize * CHARS_PER_TOKEN, text))
  {
    var limit := chunkSize * CHARS_PER_TOKEN;
    if Strip(text) == "" {
      BlankHasNoUnits(limit, text);
      NothingToPack(limit, overlap * CHARS_PER_TOKEN);
      return [];
    }
    var paragraphs := ParagraphsOf(text);
    hide Strip, ParagraphsOf, UnitsOf, Chunks;
    var units := [];
    for k := 0 to |paragraphs|
      invariant units == AllUnits(limit, paragraphs, k)
    {
      var para := paragraphs[k];
      if |para| <= limit {
        ShortParagraph(limit, para);
        units := units + [para];
      } else {
        var more := SplitSentences(limit, para);
        units := units + more;
      }
    }
    chunks := PackChunks(limit, overlap * CHARS_PER_TOKEN, units);
  }

  // ---------------------------------------------------------------- what the chunks hold

  // The units of the first k groups.
  function Flat(groups: seq<Group>, k: nat): seq<string>
    requires k <= |groups|
  {
    if k == 0 then [] else Flat(groups, k - 1) + groups[k - 1].units
  }

  function LeadAt(groups: seq<Group>, overlap: nat, i: nat): string
    requires i <= |groups|
  {
    if i == 0 then "" else LeadAfter(Text(groups[i - 1]), overlap)
  }

  // Every group has a unit and starts with the overlap of the one before it.
  ghost predicate Linked(groups: seq<Group>, overlap: nat) {
    && (forall i :: 0 <= i < |groups| ==> groups[i].units != [])
    && forall i {:trigger LeadAt(groups, overlap, i)} ::
         0 <= i < |groups| ==> groups[i].lead == LeadAt(groups, overlap, i)
  }

  lemma {:induction false} FlatPrefix(groups: seq<Group>, g: Group, k: nat)
    requires k <= |groups|
    ensures Flat(groups + [g], k) == Flat(groups, k)
  {
    if k > 0 {
      FlatPrefix(groups, g, k - 1);
    }
  }

  lemma FlatSnoc(groups: seq<Group>, g: Group)
    ensures Flat(groups + [g], |groups| + 1) == Flat(groups, |groups|) + g.units
  {
    FlatPrefix(groups, g, |groups|);
  }

  ghost predicate WellPacked(c: Chunking, overlap: nat, units: seq<string>, k: nat)
    requires k <= |units|
  {
    && Linked(c.done, overlap) && c.open.lead == LeadAt(c.done, overlap, |c.done|)
    && Flat(c.done, |c.done|) + c.open.units == units[..k]
    && (if k == 0 then c.done == [] else c.open.units != [])
  }

  lemma LinkedSnoc(groups: seq<Group>, g: Group, overlap: nat)
    requires Linked(groups, overlap) && g.units != [] && g.lead == LeadAt(groups, overlap, |groups|)
    ensures Linked(groups + [g], overlap)
    ensures LeadAt(groups + [g], overlap, |groups| + 1) == LeadAfter(Text(g), overlap)
  {
    hide LeadAfter, Text;
    var more := groups + [g];
    forall i | 0 <= i < |more|
      ensures more[i].units != [] && more[i].lead == LeadAt(more, overlap, i)
    {
      if i < |groups| {
        assert more[i] == groups[i] && LeadAt(more, overlap, i) == LeadAt(groups, overlap, i);
      }
    }
  }

  lemma AddUnitWellPacked(limit: nat, overlap: nat, c: Chunking, units: seq<string>, k: nat)
    requires k < |units| && WellPacked(c, overlap, units, k)
    ensures WellPacked(AddUnit(limit, overlap, c, units[k]), overlap, units, k + 1)
  {
    hide Text, LeadAfter, Linked;
    assert units[..k + 1] == units[..k] + [units[k]];
    if c.len + |units[k]| + 1 > limit && Parts(c.open) != [] {
      LinkedSnoc(c.done, c.open, overlap);
      FlatSnoc(c.done, c.open);
    }
  }

  lemma NothingWellPacked(overlap: nat, units: seq<string>)
    ensures WellPacked(Chunking([], Group("", []), 0), overlap, units, 0)
  {
  }

  lemma {:induction false} AddUnitsWellPacked(limit: nat, overlap: nat, units: seq<string>, k: nat)
    requires k <= |units|
    ensures WellPacked(AddUnits(limit, overlap, units, k), overlap, units, k)
  {
    hide AddUnit, WellPacked;
    if k == 0 {
      NothingWellPacked(overlap, units);
    } else {
      AddUnitsWellPacked(limit, overlap, units, k - 1);
      AddUnitWellPacked(limit, overlap, AddUnits(limit, overlap, units, k - 1), units, k - 1);
    }
  }

  /** The groups are the units in order, cut into nonempty runs; each chunk text is its overlap followed
      by its own run. */
  lemma GroupsPartitionUnits(limit: nat, overlap: nat, units: seq<string>)
    ensures var groups := Groups(limit, overlap, units);
      Linked(groups, overlap) && Flat(groups, |groups|) == units
  {
    AddUnitsWellPacked(limit, overlap, units, |units|);
    hide AddUnits, WellPacked, Linked, Flat;
    WellPackedEnds(AddUnits(limit, overlap, units, |units|), overlap, units);
  }

  lemma WellPackedEnds(c: Chunking, overlap: nat, units: seq<string>)
    requires WellPacked(c, overlap, units, |units|)
    ensures var groups := if Parts(c.open) == [] then c.done else c.done + [c.open];
      Linked(groups, overlap) && Flat(groups, |groups|) == units
  {
    hide Text, LeadAfter, Linked, LeadAt;
    assert units[..|units|] == units;
    if units != [] {
      LinkedSnoc(c.done, c.open, overlap);
      FlatSnoc(c.done, c.open);
    } else {
      NothingPacked(c, overlap);
    }
  }

  lemma NothingPacked(c: Chunking, overlap: nat)
    requires WellPacked(c, overlap, [], 0)
    ensures c.done == [] && Parts(c.open) == []
  {
    assert Flat([], 0) == [];
  }

  /** A lone unit of fewer than eight characters is dropped. */
  lemma ShortUnitIsDropped(limit: nat, overlap: nat, unit: string)
    requires 0 < |unit| < MIN_CHUNK_CHARS
    ensures Chunks(limit, overlap, [unit]) == []
  {
    var c0 := AddUnits(limit, overlap, [unit], 0);
    var c := AddUnits(limit, overlap, [unit], 1);
    assert c == AddUnit(limit, overlap, c0, unit);
    assert c.open.units == [] + [unit] == [unit];
    assert Text(c.open) == unit;
    KeptSnoc([], c.open);
    assert [] + [c.open] == [c.open] == Groups(limit, overlap, [unit]);
  }

  // ---------------------------------------------------------------- chunk length

  function Bound(limit: nat, overlap: nat, n: nat): nat {
    if limit + 1 > overlap + 2 + n then limit + 1 else overlap + 2 + n
  }

  // The running length never falls below the real one.
  ghost predicate WithinBound(c: Chunking, bound: nat) {
    && |Text(c.open)| <= c.len && |Text(c.open)| <= bound
    && forall i :: 0 <= i < |c.done| ==> |Text(c.done[i])| <= bound
  }

  lemma JoinSnocLength(parts: seq<string>, x: string)
    ensures |Join(parts + [x])| == (if parts == [] then 0 else |Join(parts)| + 2) + |x|
  {
    assert (parts + [x])[..|parts|] == parts;
  }

  lemma StartLength(tail: string, unit: string)
    ensures |Join((if Strip(tail) != "" then [tail] else []) + [unit])| <= |tail| + 2 + |unit|
  {
    hide Join, Strip;
    JoinSnocLength(if Strip(tail) != "" then [tail] else [], unit);
    JoinOfOne(tail);
  }

  lemma TailLength(chunk: string, overlap: nat)
    ensures |Tail(chunk, overlap)| <= overlap
  {
  }

  lemma AddUnitWithinBound(limit: nat, overlap: nat, c: Chunking, unit: string, n: nat)
    requires WithinBound(c, Bound(limit, overlap, n)) && |unit| <= n
    ensures WithinBound(AddUnit(limit, overlap, c, unit), Bound(limit, overlap, n))
  {
    hide Join, Strip, Tail, AddUnit, Parts;
    var c', tail := AddUnit(limit, overlap, c, unit), Tail(Join(Parts(c.open)), overlap);
    AddUnitParts(limit, overlap, c, unit);
    if c.len + |unit| + 1 > limit && Parts(c.open) != [] {
      StartLength(tail, unit);
      TailLength(Join(Parts(c.open)), overlap);
      BoundGrows(c, c', Bound(limit, overlap, n));
    } else {
      JoinSnocLength(Parts(c.open), unit);
    }
  }

  lemma BoundGrows(c: Chunking, c': Chunking, bound: nat)
    requires WithinBound(c, bound) && c'.done == c.done + [c.open]
    requires |Text(c'.open)| <= c'.len && |Text(c'.open)| <= bound
    ensures WithinBound(c', bound)
  {
    hide Text;
  }

  lemma JoinOfOne(x: string)
    ensures Join([x]) == x
  {
  }

  lemma NothingWithinBound(bound: nat)
    ensures WithinBound(Chunking([], Group("", []), 0), bound)
  {
  }

  lemma UpToAt(strings: seq<string>, i: nat, n: nat)
    requires UpTo(strings, n) && i < |strings|
    ensures |strings[i]| <= n
  {
  }

  lemma {:induction false} AddUnitsWithinBound(limit: nat, overlap: nat, units: seq<string>, k: nat, n: nat)
    requires k <= |units| && UpTo(units, n)
    ensures WithinBound(AddUnits(limit, overlap, units, k), Bound(limit, overlap, n))
  {
    hide Bound, WithinBound, AddUnit, UpTo;
    if k == 0 {
      NothingWithinBound(Bound(limit, overlap, n));
    } else {
      AddUnitsWithinBound(limit, overlap, units, k - 1, n);
      UpToAt(units, k - 1, n);
      AddUnitWithinBound(limit, overlap, AddUnits(limit, overlap, units, k - 1), units[k - 1], n);
    }
  }

  lemma NothingUpTo(n: nat)
    ensures UpTo([], n)
  {
  }

  lemma {:induction false} KeptUpTo(groups: seq<Group>, k: nat, n: nat)
    requires k <= |groups| && forall i :: 0 <= i < |groups| ==> |Text(groups[i])| <= n
    ensures UpTo(Kept(groups, k), n)
  {
    hide Text, UpTo;
    if k == 0 {
      NothingUpTo(n);
    } else {
      KeptUpTo(groups, k - 1, n);
      UpToSnoc(Kept(groups, k - 1), Text(groups[k - 1]), n);
    }
  }

  lemma UnitsBoundChunks(limit: nat, overlap: nat, units: seq<string>, n: nat)
    requires UpTo(units, n)
    ensures UpTo(Chunks(limit, overlap, units), Bound(limit, overlap, n))
  {
    AddUnitsWithinBound(limit, overlap, units, |units|, n);
    hide Text, AddUnits, Kept, Bound;
    KeptUpTo(Groups(limit, overlap, units), |Groups(limit, overlap, units)|, Bound(limit, overlap, n));
  }

  /** Every chunk of a text is at most max(chunk_chars + 1, overlap_chars + 2 + n) long, where n bounds the
      chunk size and the sentences of oversized paragraphs. */
  lemma ChunkLength(text: string, limit: nat, overlap: nat, n: nat)
    requires limit <= n && SentencesUpTo(limit, ParagraphsOf(text), n)
    ensures UpTo(Chunks(limit, overlap, Units(limit, text)), Bound(limit, overlap, n))
  {
    hide SentencesUpTo, UpTo, Chunks, Units;
    UnitLength(limit, text, n);
    UnitsBoundChunks(limit, overlap, Units(limit, text), n);
  }
}
