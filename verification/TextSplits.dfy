/** What the splitting of a text comes to, apart from how it is done: where re.split cuts, and which sentences
    of an oversized paragraph share a unit. */
module TextSplits {
  import opened TextUnits

  // ---------------------------------------------------------------- where a text is cut

  // Two newlines or more between paragraphs, white space between sentences.
  predicate IsSeparator(mode: Mode, sep: string) {
    match mode
    case Paragraphs => |sep| >= 2 && forall k :: 0 <= k < |sep| ==> sep[k] == '\n'
    case Sentences => |sep| >= 1 && forall k :: 0 <= k < |sep| ==> IsSpace(sep[k])
  }

  predicate EndsSentence(c: char) {
    c == '.' || c == '!' || c == '?'
  }

  // There is another place to cut inside the piece.
  predicate CutInside(mode: Mode, p: string) {
    exists k :: 0 < k < |p| && CutAt(mode, p[k - 1], p[k])
  }

  predicate CutAt(mode: Mode, a: char, b: char) {
    match mode
    case Paragraphs => a == '\n' && b == '\n'
    case Sentences => EndsSentence(a) && IsSpace(b)
  }

  // A separator takes in all that belongs to it: what follows it starts with something else, what precedes a
  // blank line ends with something else, and what precedes white space between sentences ends a sentence.
  predicate CutCleanly(mode: Mode, before: string, after: string) {
    && (after != "" ==> !InSeparator(mode, after[0]))
    && match mode
       case Paragraphs => before != "" ==> before[|before| - 1] != '\n'
       case Sentences => before != "" && EndsSentence(before[|before| - 1])
  }

  // The separators that Pieces drops.
  function Separators(mode: Mode, s: string, i: nat): (seps: seq<string>)
    requires i <= |s|
    ensures |seps| == |Pieces(mode, s, i)| - 1
    decreases |s| - i
  {
    var j := FindBreak(mode, s, i);
    if j == |s| then []
    else [s[j..SeparatorEnd(mode, s, j)]] + Separators(mode, s, SeparatorEnd(mode, s, j))
  }

  // Pieces with separators between them.
  function Woven(pieces: seq<string>, seps: seq<string>): string
    requires |pieces| == |seps| + 1
  {
    if seps == [] then pieces[0] else pieces[0] + seps[0] + Woven(pieces[1..], seps[1..])
  }

  // The one right way to cut s.
  ghost predicate RightCut(mode: Mode, s: string, pieces: seq<string>, seps: seq<string>) {
    && |pieces| == |seps| + 1 && Woven(pieces, seps) == s
    && (forall k :: 0 <= k < |seps| ==> IsSeparator(mode, seps[k]) && CutCleanly(mode, pieces[k], pieces[k + 1]))
    && forall k :: 0 <= k < |pieces| ==> !CutInside(mode, pieces[k])
  }

  lemma NoneInside(mode: Mode, s: string, i: nat, j: nat)
    requires i <= j <= |s| && forall k :: i <= k < j ==> !BreakAt(mode, s, k)
    ensures !CutInside(mode, s[i..j])
  {
    forall k | 0 < k < j - i
      ensures !CutAt(mode, s[i..j][k - 1], s[i..j][k])
    {
      assert s[i..j][k - 1] == s[i + k - 1] && s[i..j][k] == s[i + k];
      assert !BreakAt(mode, s, i + k) && !BreakAt(mode, s, i + k - 1);
    }
  }

  lemma FirstSeparator(mode: Mode, s: string, i: nat, j: nat)
    requires i <= j < |s| && BreakAt(mode, s, j) && (i == 0 || !InSeparator(mode, s[i]))
    requires forall k :: i <= k < j ==> !BreakAt(mode, s, k)
    ensures var e := SeparatorEnd(mode, s, j);
      && j < e && IsSeparator(mode, s[j..e])
      && match mode
         case Paragraphs => i < j ==> s[j - 1] != '\n'
         case Sentences => i < j && EndsSentence(s[j - 1])
  {
    var e := SeparatorEnd(mode, s, j);
    if mode.Paragraphs? {
      assert j + 1 < |s| && s[j + 1] == '\n';
      assert e < |s| ==> !InSeparator(mode, s[e]);
      if i < j {
        assert !BreakAt(mode, s, j - 1);
      }
    }
  }

  lemma {:induction false} CutFrom(mode: Mode, s: string, i: nat)
    requires i <= |s| && (i == 0 || i == |s| || !InSeparator(mode, s[i]))
    ensures RightCut(mode, s[i..], Pieces(mode, s, i), Separators(mode, s, i))
    ensures Pieces(mode, s, i)[0] <= s[i..]
    decreases |s| - i
  {
    hide IsSeparator, CutInside, BreakAt, InSeparator;
    var j := FindBreak(mode, s, i);
    NoneInside(mode, s, i, j);
    if j < |s| {
      var e := SeparatorEnd(mode, s, j);
      FirstSeparator(mode, s, i, j);
      CutFrom(mode, s, e);
      JoinCut(mode, s, i, j, e);
    } else {
      assert s[i..j] == s[i..];
    }
  }

  lemma WovenCons(p: string, sep: string, pieces: seq<string>, seps: seq<string>)
    requires |pieces| == |seps| + 1
    ensures Woven([p] + pieces, [sep] + seps) == p + sep + Woven(pieces, seps)
  {
    assert ([p] + pieces)[1..] == pieces && ([sep] + seps)[1..] == seps;
  }

  lemma RightCutCons(mode: Mode, p: string, sep: string, s: string, pieces: seq<string>, seps: seq<string>)
    requires RightCut(mode, s, pieces, seps) && !CutInside(mode, p) && IsSeparator(mode, sep)
    requires CutCleanly(mode, p, pieces[0])
    ensures RightCut(mode, p + sep + s, [p] + pieces, [sep] + seps)
  {
    hide IsSeparator, CutInside, CutCleanly, Woven;
    WovenCons(p, sep, pieces, seps);
    forall k | 0 <= k < |seps| + 1
      ensures var sep', before, after := ([sep] + seps)[k], ([p] + pieces)[k], ([p] + pieces)[k + 1];
        IsSeparator(mode, sep') && CutCleanly(mode, before, after)
    {
      if k > 0 {
        assert ([p] + pieces)[k] == pieces[k - 1] && ([p] + pieces)[k + 1] == pieces[k];
      }
    }
    forall k | 0 <= k < |pieces| + 1
      ensures !CutInside(mode, ([p] + pieces)[k])
    {
      if k > 0 {
        assert ([p] + pieces)[k] == pieces[k - 1];
      }
    }
  }

  lemma CleanCut(mode: Mode, s: string, i: nat, j: nat, e: nat, next: string)
    requires i <= j < e <= |s| && e == SeparatorEnd(mode, s, j) && next <= s[e..]
    requires match mode
             case Paragraphs => i < j ==> s[j - 1] != '\n'
             case Sentences => i < j && EndsSentence(s[j - 1])
    ensures CutCleanly(mode, s[i..j], next)
  {
    assert next != "" ==> next[0] == s[e];
    assert i < j ==> s[i..j][j - i - 1] == s[j - 1];
  }

  lemma PiecesFrom(mode: Mode, s: string, i: nat, j: nat, e: nat)
    requires i <= j < |s| && j == FindBreak(mode, s, i) && e == SeparatorEnd(mode, s, j)
    ensures Pieces(mode, s, i) == [s[i..j]] + Pieces(mode, s, e)
    ensures Separators(mode, s, i) == [s[j..e]] + Separators(mode, s, e)
    ensures Pieces(mode, s, i)[0] == s[i..j]
  {
  }

  lemma ThreeParts(s: string, i: nat, j: nat, e: nat)
    requires i <= j <= e <= |s|
    ensures s[i..j] + s[j..e] + s[e..] == s[i..] && s[i..j] <= s[i..]
  {
  }

  lemma JoinCut(mode: Mode, s: string, i: nat, j: nat, e: nat)
    requires i <= j < e <= |s| && j == FindBreak(mode, s, i) && e == SeparatorEnd(mode, s, j)
    requires RightCut(mode, s[e..], Pieces(mode, s, e), Separators(mode, s, e)) && Pieces(mode, s, e)[0] <= s[e..]
    requires !CutInside(mode, s[i..j]) && IsSeparator(mode, s[j..e])
    requires match mode
             case Paragraphs => i < j ==> s[j - 1] != '\n'
             case Sentences => i < j && EndsSentence(s[j - 1])
    ensures RightCut(mode, s[i..], Pieces(mode, s, i), Separators(mode, s, i))
    ensures Pieces(mode, s, i)[0] <= s[i..]
  {
    hide *;
    PiecesFrom(mode, s, i, j, e);
    ThreeParts(s, i, j, e);
    CleanCut(mode, s, i, j, e, Pieces(mode, s, e)[0]);
    RightCutCons(mode, s[i..j], s[j..e], s[e..], Pieces(mode, s, e), Separators(mode, s, e));
  }

  /** The text is its pieces with the separators put back, and they are cut exactly where a blank line or the end of a
      sentence is: every separator is one, taken whole, and no piece holds another. */
  lemma PiecesAreRight(mode: Mode, s: string)
    ensures RightCut(mode, s, Pieces(mode, s, 0), Separators(mode, s, 0))
  {
    CutFrom(mode, s, 0);
    assert s[0..] == s;
  }

  // ---------------------------------------------------------------- which sentences share a unit

  // Nonempty, with no white space around it.
  predicate Trim(s: string) {
    s != "" && !IsSpace(s[0]) && !IsSpace(s[|s| - 1])
  }

  lemma TrimStrips(s: string)
    requires Trim(s)
    ensures Strip(s) == s
  {
    assert StripLeft(s) == s;
  }

  lemma {:induction false} RightStart(s: string)
    requires s != "" && !IsSpace(s[0])
    ensures Trim(StripRight(s)) && StripRight(s)[0] == s[0]
  {
    if IsSpace(s[|s| - 1]) {
      RightStart(s[..|s| - 1]);
    }
  }

  lemma {:induction false} LeftStart(s: string)
    ensures StripLeft(s) == "" || !IsSpace(StripLeft(s)[0])
  {
    if s != "" && IsSpace(s[0]) {
      LeftStart(s[1..]);
    }
  }

  lemma StripIsTrim(s: string)
    ensures Strip(s) == "" || Trim(Strip(s))
  {
    LeftStart(s);
    if StripLeft(s) != "" {
      RightStart(StripLeft(s));
    }
  }

  ghost predicate AllTrim(strings: seq<string>) {
    forall i :: 0 <= i < |strings| ==> Trim(strings[i])
  }

  // Paragraphs are trimmed ...
  lemma {:induction false} StrippedTrim(pieces: seq<string>, k: nat)
    requires k <= |pieces|
    ensures AllTrim(StrippedNonBlank(pieces, k))
  {
    hide Strip, Trim;
    if k > 0 {
      StrippedTrim(pieces, k - 1);
      StripIsTrim(pieces[k - 1]);
    }
  }

  // ... and so are the sentences of a trimmed one.
  lemma SentencesTrim(para: string)
    requires Trim(para)
    ensures AllTrim(Pieces(Sentences, para, 0))
  {
    var sents := Pieces(Sentences, para, 0);
    PiecesAreRight(Sentences, para);
    SentencesEnd(para, 0);
    CutFrom(Sentences, para, 0);
    assert para[0..] == para;
    hide Woven, Pieces, IsSeparator, CutInside;
    forall i | 0 <= i < |sents|
      ensures Trim(sents[i])
    {
      assert EndsInInk(sents[i]);
      if i > 0 {
        assert CutCleanly(Sentences, sents[i - 1], sents[i]);
      } else {
        assert sents[0] <= para;
      }
    }
  }

  // " ".join
  function Spaced(sents: seq<string>): string {
    if sents == [] then ""
    else if |sents| == 1 then sents[0]
    else Spaced(sents[..|sents| - 1]) + " " + sents[|sents| - 1]
  }

  function Flattened(groups: seq<seq<string>>, k: nat): seq<string>
    requires k <= |groups|
  {
    if k == 0 then [] else Flattened(groups, k - 1) + groups[k - 1]
  }

  // The groups cut the sentences into runs, as greedily as the limit allows: a run of several fits, and the first
  // sentence of the next run would not have.
  ghost predicate Greedy(limit: nat, sents: seq<string>, groups: seq<seq<string>>) {
    && Flattened(groups, |groups|) == sents
    && (forall i :: 0 <= i < |groups| ==> groups[i] != [] && (|groups[i]| > 1 ==> |Spaced(groups[i])| <= limit))
    && forall i :: 0 <= i && i + 1 < |groups| ==> |Spaced(groups[i])| + 1 + |groups[i + 1][0]| > limit
  }

  // The units are the runs, joined by spaces.
  ghost predicate Spoken(units: seq<string>, groups: seq<seq<string>>) {
    |units| == |groups| && forall i :: 0 <= i < |units| ==> units[i] == Spaced(groups[i])
  }

  lemma {:induction false} SpacedTrim(sents: seq<string>)
    requires sents != [] && AllTrim(sents)
    ensures Trim(Spaced(sents))
  {
    if |sents| > 1 {
      SpacedTrim(sents[..|sents| - 1]);
    }
  }

  lemma SpacedSnoc(sents: seq<string>, x: string)
    requires sents != []
    ensures Spaced(sents + [x]) == Spaced(sents) + " " + x
  {
    assert (sents + [x])[..|sents|] == sents;
  }

  lemma {:induction false} FlattenedPrefix(groups: seq<seq<string>>, g: seq<string>, k: nat)
    requires k <= |groups|
    ensures Flattened(groups + [g], k) == Flattened(groups, k)
  {
    if k > 0 {
      FlattenedPrefix(groups, g, k - 1);
    }
  }

  // The first sentence of a new run.
  lemma GreedyOpens(limit: nat, sents: seq<string>, groups: seq<seq<string>>, x: string)
    requires Greedy(limit, sents, groups)
    requires groups != [] ==> |Spaced(groups[|groups| - 1])| + 1 + |x| > limit
    ensures Greedy(limit, sents + [x], groups + [[x]])
  {
    FlattenedPrefix(groups, [x], |groups|);
    hide Spaced;
  }

  // One more sentence in the last run.
  lemma GreedyJoins(limit: nat, sents: seq<string>, groups: seq<seq<string>>, x: string)
    requires Greedy(limit, sents, groups) && groups != []
    requires |Spaced(groups[|groups| - 1])| + 1 + |x| <= limit
    ensures var m := |groups| - 1; Greedy(limit, sents + [x], groups[..m] + [groups[m] + [x]])
  {
    var m := |groups| - 1;
    var front, last := groups[..m], groups[m];
    var joined := front + [last + [x]];
    SpacedSnoc(last, x);
    FlattenedPrefix(front, last, m);
    FlattenedPrefix(front, last + [x], m);
    assert front + [last] == groups;
    hide Spaced;
    assert Flattened(joined, m + 1) == Flattened(front, m) + (last + [x]) == sents + [x];
    forall i | 0 <= i && i + 1 < |joined|
      ensures |Spaced(joined[i])| + 1 + |joined[i + 1][0]| > limit
    {
      assert joined[i] == groups[i] && joined[i + 1][0] == groups[i + 1][0];
    }
  }

  // Where the sentence loop stands, in terms of runs.
  ghost predicate PackedAs(limit: nat, sents: seq<string>, p: Packing, groups: seq<seq<string>>) {
    && Greedy(limit, sents, groups) && Spoken(Closed(p), groups)
    && if groups == [] then p == Packing([], "") else Trim(p.current)
  }

  lemma LastRun(limit: nat, sents: seq<string>, p: Packing, groups: seq<seq<string>>)
    requires PackedAs(limit, sents, p, groups) && groups != []
    ensures groups[|groups| - 1] != [] && p.current == Spaced(groups[|groups| - 1]) && Trim(p.current)
    ensures Greedy(limit, sents, groups) && Spoken(p.units, groups[..|groups| - 1])
  {
    hide Spaced, Flattened;
    assert Closed(p) == p.units + [p.current];
    assert Closed(p)[|groups| - 1] == p.current;
    forall i | 0 <= i < |p.units|
      ensures p.units[i] == Spaced(groups[i])
    {
      assert Closed(p)[i] == p.units[i];
    }
  }

  lemma SpokenSnoc(units: seq<string>, groups: seq<seq<string>>, current: string, run: seq<string>)
    requires Spoken(units, groups) && current == Spaced(run)
    ensures Spoken(units + [current], groups + [run])
  {
    hide Spaced;
  }

  lemma PackedBy(limit: nat, sents: seq<string>, p: Packing, groups: seq<seq<string>>, run: seq<string>)
    requires Greedy(limit, sents, groups + [run]) && Spoken(p.units, groups)
    requires Trim(p.current) && p.current == Spaced(run)
    ensures PackedAs(limit, sents, p, groups + [run])
  {
    SpokenSnoc(p.units, groups, p.current, run);
    assert p.current != "" && Closed(p) == p.units + [p.current];
    hide Greedy, Spoken, Spaced, Closed;
  }

  lemma Spelled(current: string, x: string)
    requires Trim(current) && Trim(x)
    ensures Strip(current + " " + x) == current + " " + x && Trim(current + " " + x)
  {
    TrimStrips(current + " " + x);
  }

  lemma SentenceJoins(limit: nat, sents: seq<string>, p: Packing, groups: seq<seq<string>>, x: string)
    requires PackedAs(limit, sents, p, groups) && Trim(x) && groups != [] && |p.current| + |x| + 1 <= limit
    ensures var m := |groups| - 1;
      PackedAs(limit, sents + [x], AddSentence(limit, p, x), groups[..m] + [groups[m] + [x]])
  {
    var m := |groups| - 1;
    LastRun(limit, sents, p, groups);
    assert p.current != "";
    Spelled(p.current, x);
    hide PackedAs, Greedy, Spoken, Strip, Trim;
    GreedyJoins(limit, sents, groups, x);
    SpacedSnoc(groups[m], x);
    PackedBy(limit, sents + [x], AddSentence(limit, p, x), groups[..m], groups[m] + [x]);
  }

  lemma SentenceOpens(limit: nat, sents: seq<string>, p: Packing, groups: seq<seq<string>>, x: string)
    requires PackedAs(limit, sents, p, groups) && Trim(x) && (groups != [] ==> |p.current| + |x| + 1 > limit)
    ensures PackedAs(limit, sents + [x], AddSentence(limit, p, x), groups + [[x]])
  {
    assert Spoken(Closed(p), groups) && Greedy(limit, sents, groups);
    assert groups == [] ==> p == Packing([], "");
    assert groups != [] ==> p.current != "";
    if groups != [] {
      LastRun(limit, sents, p, groups);
    }
    assert AddSentence(limit, p, x) == Packing(Closed(p), x);
    hide PackedAs, Greedy, Spoken, Strip, Trim, AddSentence, Closed;
    GreedyOpens(limit, sents, groups, x);
    PackedBy(limit, sents + [x], AddSentence(limit, p, x), groups, [x]);
  }

  lemma NothingGrouped(limit: nat, sents: seq<string>)
    ensures PackedAs(limit, sents[..0], AddSentences(limit, sents, 0), [])
  {
  }

  lemma NextSentence(limit: nat, sents: seq<string>, k: nat)
    requires k < |sents|
    ensures AddSentences(limit, sents, k + 1) == AddSentence(limit, AddSentences(limit, sents, k), sents[k])
    ensures sents[..k + 1] == sents[..k] + [sents[k]]
  {
  }

  lemma TrimAt(sents: seq<string>, k: nat)
    requires AllTrim(sents) && k < |sents|
    ensures Trim(sents[k])
  {
  }

  lemma {:induction false} PackedGroups(limit: nat, sents: seq<string>, k: nat) returns (groups: seq<seq<string>>)
    requires k <= |sents| && AllTrim(sents)
    ensures PackedAs(limit, sents[..k], AddSentences(limit, sents, k), groups)
  {
    hide *;
    if k == 0 {
      NothingGrouped(limit, sents);
      groups := [];
    } else {
      var before := PackedGroups(limit, sents, k - 1);
      var p, x, m := AddSentences(limit, sents, k - 1), sents[k - 1], |before| - 1;
      NextSentence(limit, sents, k - 1);
      TrimAt(sents, k - 1);
      if before != [] && |p.current| + |x| + 1 <= limit {
        SentenceJoins(limit, sents[..k - 1], p, before, x);
        groups := before[..m] + [before[m] + [x]];
      } else {
        SentenceOpens(limit, sents[..k - 1], p, before, x);
        groups := before + [[x]];
      }
    }
  }

  lemma PackedIsClosed(limit: nat, sents: seq<string>, p: Packing, groups: seq<seq<string>>)
    requires PackedAs(limit, sents, p, groups)
    ensures Greedy(limit, sents, groups) && Spoken(Closed(p), groups)
  {
  }

  // The units of a paragraph: itself if it fits, else greedy runs of its sentences.
  ghost predicate UnitsRight(limit: nat, para: string, units: seq<string>) {
    if |para| <= limit then units == [para]
    else exists groups :: Greedy(limit, Pieces(Sentences, para, 0), groups) && Spoken(units, groups)
  }

  lemma UnitsOfMeaning(limit: nat, para: string)
    requires Trim(para)
    ensures UnitsRight(limit, para, UnitsOf(limit, para))
  {
    if |para| > limit {
      var sents := Pieces(Sentences, para, 0);
      SentencesTrim(para);
      hide Pieces, Greedy, Spoken, Closed, AllTrim, PackedAs;
      var groups := PackedGroups(limit, sents, |sents|);
      PackedIsClosed(limit, sents[..|sents|], AddSentences(limit, sents, |sents|), groups);
      assert sents[..|sents|] == sents;
    }
  }

  ghost predicate ParagraphsRight(limit: nat, paras: seq<string>, units: seq<seq<string>>) {
    |units| == |paras| && forall i :: 0 <= i < |paras| ==> UnitsRight(limit, paras[i], units[i])
  }

  lemma {:induction false} AllUnitsMeaning(limit: nat, paras: seq<string>, k: nat) returns (units: seq<seq<string>>)
    requires k <= |paras| && AllTrim(paras)
    ensures ParagraphsRight(limit, paras[..k], units) && AllUnits(limit, paras, k) == Flattened(units, |units|)
  {
    hide UnitsOf, UnitsRight, Trim;
    units := [];
    if k > 0 {
      var before := AllUnitsMeaning(limit, paras, k - 1);
      UnitsOfMeaning(limit, paras[k - 1]);
      FlattenedPrefix(before, UnitsOf(limit, paras[k - 1]), |before|);
      units := before + [UnitsOf(limit, paras[k - 1])];
    }
  }

  /** The units of a text are those of its paragraphs in order, the trimmed pieces between blank lines: a paragraph
      that fits is a unit, and any other gives the runs of its sentences that greedy packing gives. */
  lemma UnitsMeaning(limit: nat, text: string) returns (units: seq<seq<string>>)
    ensures ParagraphsRight(limit, ParagraphsOf(text), units) && Units(limit, text) == Flattened(units, |units|)
  {
    var paras := ParagraphsOf(text);
    var pieces := Pieces(Paragraphs, text, 0);
    StrippedTrim(pieces, |pieces|);
    hide Pieces, ParagraphsRight, AllTrim;
    units := AllUnitsMeaning(limit, paras, |paras|);
    assert paras[..|paras|] == paras;
  }
}
