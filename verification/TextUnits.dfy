/** chunk_text, first half: split a text into paragraphs, and oversized paragraphs into packed sentences. */
module TextUnits {

  // ---------------------------------------------------------------- white space

  // str.isspace, which is also \s
  predicate IsSpace(c: char) {
    var n := c as int;
    || 0x09 <= n <= 0x0d || 0x1c <= n <= 0x20 || n == 0x85 || n == 0xa0 || n == 0x1680
    || 0x2000 <= n <= 0x200a || n == 0x2028 || n == 0x2029 || n == 0x202f || n == 0x205f || n == 0x3000
  }

  function StripLeft(s: string): string {
    if s != "" && IsSpace(s[0]) then StripLeft(s[1..]) else s
  }

  function StripRight(s: string): string {
    if s != "" && IsSpace(s[|s| - 1]) then StripRight(s[..|s| - 1]) else s
  }

  function Strip(s: string): string {
    StripRight(StripLeft(s))
  }

  // The characters of s that are not white space, in order.
  function Ink(s: string): string {
    if s == "" then "" else (if IsSpace(s[0]) then "" else [s[0]]) + Ink(s[1..])
  }

  lemma Assoc(a: string, b: string, c: string)
    ensures (a + b) + c == a + (b + c)
  {
  }

  lemma {:induction false} InkConcat(a: string, b: string)
    ensures Ink(a + b) == Ink(a) + Ink(b)
  {
    hide IsSpace;
    if a == "" {
      assert a + b == b;
    } else {
      InkConcat(a[1..], b);
      assert (a + b)[1..] == a[1..] + b;
      assert (a + b)[0] == a[0];
      Assoc(if IsSpace(a[0]) then "" else [a[0]], Ink(a[1..]), Ink(b));
    }
  }

  lemma {:induction false} InkStripLeft(s: string)
    ensures Ink(StripLeft(s)) == Ink(s) && |StripLeft(s)| <= |s|
  {
    if s != "" && IsSpace(s[0]) {
      InkStripLeft(s[1..]);
    }
  }

  lemma {:induction false} InkStripRight(s: string)
    ensures Ink(StripRight(s)) == Ink(s) && |StripRight(s)| <= |s|
  {
    if s != "" && IsSpace(s[|s| - 1]) {
      var front, last := s[..|s| - 1], s[|s| - 1..];
      InkStripRight(front);
      InkConcat(front, last);
      assert s == front + last && Ink(last) == "";
    }
  }

  lemma StripKeepsInk(s: string)
    ensures Ink(Strip(s)) == Ink(s) && |Strip(s)| <= |s|
  {
    InkStripLeft(s);
    InkStripRight(StripLeft(s));
  }

  // ---------------------------------------------------------------- splitting

  datatype Mode = Paragraphs | Sentences

  // Where a separator starts: \n{2,} between paragraphs, (?<=[.!?])\s+ between sentences.
  predicate BreakAt(mode: Mode, s: string, i: nat)
    requires i < |s|
  {
    match mode
    case Paragraphs => s[i] == '\n' && i + 1 < |s| && s[i + 1] == '\n'
    case Sentences => i > 0 && (s[i - 1] == '.' || s[i - 1] == '!' || s[i - 1] == '?') && IsSpace(s[i])
  }

  predicate InSeparator(mode: Mode, c: char) {
    match mode case Paragraphs => c == '\n' case Sentences => IsSpace(c)
  }

  function FindBreak(mode: Mode, s: string, i: nat): (j: nat)
    requires i <= |s|
    ensures i <= j <= |s| && (j < |s| ==> BreakAt(mode, s, j))
    ensures forall k :: i <= k < j ==> !BreakAt(mode, s, k)
    decreases |s| - i
  {
    if i == |s| || BreakAt(mode, s, i) then i else FindBreak(mode, s, i + 1)
  }

  function SeparatorEnd(mode: Mode, s: string, i: nat): (j: nat)
    requires i <= |s|
    ensures i <= j <= |s| && (i < |s| && InSeparator(mode, s[i]) ==> i < j)
    ensures j < |s| ==> !InSeparator(mode, s[j])
    ensures forall k :: i <= k < j ==> InSeparator(mode, s[k])
    decreases |s| - i
  {
    if i == |s| || !InSeparator(mode, s[i]) then i else SeparatorEnd(mode, s, i + 1)
  }

  // re.split, from position i on.
  function Pieces(mode: Mode, s: string, i: nat): (pieces: seq<string>)
    requires i <= |s|
    ensures pieces != []
    decreases |s| - i
  {
    var j := FindBreak(mode, s, i);
    if j == |s| then [s[i..]] else [s[i..j]] + Pieces(mode, s, SeparatorEnd(mode, s, j))
  }

  function InkAll(pieces: seq<string>): string {
    if pieces == [] then "" else Ink(pieces[0]) + InkAll(pieces[1..])
  }

  lemma {:induction false} InkAllConcat(a: seq<string>, b: seq<string>)
    ensures InkAll(a + b) == InkAll(a) + InkAll(b)
  {
    hide Ink;
    if a == [] {
      assert a + b == b;
    } else {
      InkAllConcat(a[1..], b);
      assert (a + b)[1..] == a[1..] + b;
      Assoc(Ink(a[0]), InkAll(a[1..]), InkAll(b));
    }
  }

  lemma {:induction false} SpaceHasNoInk(s: string)
    requires forall k :: 0 <= k < |s| ==> IsSpace(s[k])
    ensures Ink(s) == ""
  {
    if s != "" {
      SpaceHasNoInk(s[1..]);
    }
  }

  lemma InkAllCons(x: string, rest: seq<string>)
    ensures InkAll([x] + rest) == Ink(x) + InkAll(rest)
  {
    assert ([x] + rest)[1..] == rest;
  }

  lemma InkAroundSeparator(mode: Mode, s: string, i: nat, j: nat, e: nat)
    requires i <= j <= e <= |s| && forall k :: j <= k < e ==> InSeparator(mode, s[k])
    ensures Ink(s[i..]) == Ink(s[i..j]) + Ink(s[e..])
  {
    hide Ink, IsSpace, InSeparator;
    SeparatorHasNoInk(mode, s, j, e);
    InkSplits(s, j, e);
    InkSplits(s, i, j);
  }

  lemma SeparatorHasNoInk(mode: Mode, s: string, j: nat, e: nat)
    requires j <= e <= |s| && forall k :: j <= k < e ==> InSeparator(mode, s[k])
    ensures Ink(s[j..e]) == ""
  {
    hide Ink;
    SpaceHasNoInk(s[j..e]);
  }

  lemma InkSplits(s: string, i: nat, j: nat)
    requires i <= j <= |s|
    ensures Ink(s[i..]) == Ink(s[i..j]) + Ink(s[j..])
  {
    hide Ink;
    InkConcat(s[i..j], s[j..]);
    assert s[i..] == s[i..j] + s[j..];
  }

  // Splitting drops white space only.
  lemma {:induction false} PiecesKeepInk(mode: Mode, s: string, i: nat)
    requires i <= |s|
    ensures InkAll(Pieces(mode, s, i)) == Ink(s[i..])
    decreases |s| - i
  {
    hide Ink, BreakAt, InSeparator;
    var j := FindBreak(mode, s, i);
    if j == |s| {
      InkAllCons(s[i..], []);
      assert [s[i..]] + [] == [s[i..]];
      assert InkAll([]) == "";
    } else {
      SeparatorAdvances(mode, s, j);
      var e := SeparatorEnd(mode, s, j);
      PiecesKeepInk(mode, s, e);
      InkAllCons(s[i..j], Pieces(mode, s, e));
      InkAroundSeparator(mode, s, i, j, e);
    }
  }

  lemma SeparatorAdvances(mode: Mode, s: string, j: nat)
    requires j < |s| && BreakAt(mode, s, j)
    ensures j < SeparatorEnd(mode, s, j)
  {
  }

  // [p.strip() for p in pieces if p.strip()], over the first k.
  function StrippedNonBlank(pieces: seq<string>, k: nat): seq<string>
    requires k <= |pieces|
  {
    if k == 0 then []
    else
      var p := Strip(pieces[k - 1]);
      if p == "" then StrippedNonBlank(pieces, k - 1) else StrippedNonBlank(pieces, k - 1) + [p]
  }

  lemma InkAllSnoc(a: seq<string>, x: string)
    ensures InkAll(a + [x]) == InkAll(a) + Ink(x)
  {
    InkAllConcat(a, [x]);
    InkAllCons(x, []);
    assert [x] + [] == [x];
  }

  // The same, over the first k pieces.
  function InkTo(pieces: seq<string>, k: nat): string
    requires k <= |pieces|
  {
    if k == 0 then "" else InkTo(pieces, k - 1) + Ink(pieces[k - 1])
  }

  lemma {:induction false} InkToAll(pieces: seq<string>, k: nat)
    requires k <= |pieces|
    ensures InkTo(pieces, k) == InkAll(pieces[..k])
  {
    if k > 0 {
      InkToAll(pieces, k - 1);
      InkAllSnoc(pieces[..k - 1], pieces[k - 1]);
      assert pieces[..k] == pieces[..k - 1] + [pieces[k - 1]];
      hide Ink, InkAll;
    }
  }

  lemma InkToWhole(pieces: seq<string>)
    ensures InkTo(pieces, |pieces|) == InkAll(pieces)
  {
    InkToAll(pieces, |pieces|);
    assert pieces[..|pieces|] == pieces;
  }

  lemma NoInkInNothing()
    ensures Ink("") == "" && InkAll([]) == ""
  {
  }

  lemma {:induction false} StrippedKeepInk(pieces: seq<string>, k: nat)
    requires k <= |pieces|
    ensures InkAll(StrippedNonBlank(pieces, k)) == InkTo(pieces, k)
  {
    if k > 0 {
      hide Ink, InkAll, Strip;
      var p := pieces[k - 1];
      StripKeepsInk(p);
      NoInkInNothing();
      StrippedKeepInk(pieces, k - 1);
      InkAllSnoc(StrippedNonBlank(pieces, k - 1), Strip(p));
    }
  }

  // ---------------------------------------------------------------- units

  datatype Packing = Packing(units: seq<string>, current: string)

  // One turn of the sentence loop.
  function AddSentence(limit: nat, p: Packing, sent: string): Packing {
    if |p.current| + |sent| + 1 <= limit then
      p.(current := if p.current != "" then Strip(p.current + " " + sent) else sent)
    else
      Packing(if p.current != "" then p.units + [p.current] else p.units, sent)
  }

  function AddSentences(limit: nat, sents: seq<string>, k: nat): Packing
    requires k <= |sents|
  {
    if k == 0 then Packing([], "") else AddSentence(limit, AddSentences(limit, sents, k - 1), sents[k - 1])
  }

  function Closed(p: Packing): seq<string> {
    if p.current != "" then p.units + [p.current] else p.units
  }

  function UnitsOf(limit: nat, para: string): seq<string> {
    if |para| <= limit then [para]
    else
      var sents := Pieces(Sentences, para, 0);
      Closed(AddSentences(limit, sents, |sents|))
  }

  function AllUnits(limit: nat, paras: seq<string>, k: nat): seq<string>
    requires k <= |paras|
  {
    if k == 0 then [] else AllUnits(limit, paras, k - 1) + UnitsOf(limit, paras[k - 1])
  }

  function ParagraphsOf(text: string): seq<string> {
    var pieces := Pieces(Paragraphs, text, 0);
    StrippedNonBlank(pieces, |pieces|)
  }

  function Units(limit: nat, text: string): seq<string> {
    AllUnits(limit, ParagraphsOf(text), |ParagraphsOf(text)|)
  }

  lemma {:induction false} SentencesKeepInk(limit: nat, sents: seq<string>, k: nat)
    requires k <= |sents|
    ensures InkAll(Closed(AddSentences(limit, sents, k))) == InkTo(sents, k)
  {
    hide Ink, InkAll, Closed, AddSentence;
    if k > 0 {
      SentenceKeepsInk(limit, AddSentences(limit, sents, k - 1), sents[k - 1]);
      SentencesKeepInk(limit, sents, k - 1);
    } else {
      assert Closed(Packing([], "")) == [] by {
        NothingPacked();
      }
      assert InkAll([]) == "" by {
        NothingPacked();
      }
    }
  }

  lemma NothingPacked()
    ensures Closed(Packing([], "")) == [] && InkAll([]) == ""
  {
  }

  lemma JoinedInk(a: string, b: string)
    ensures Ink(Strip(a + " " + b)) == Ink(a) + Ink(b)
  {
    StripKeepsInk(a + " " + b);
    assert Ink(" ") == "";
    hide Ink, Strip;
    InkConcat(a + " ", b);
    InkConcat(a, " ");
  }

  lemma ClosedInk(p: Packing)
    ensures InkAll(Closed(p)) == InkAll(p.units) + Ink(p.current)
  {
    hide InkAll;
    InkAllSnoc(p.units, p.current);
    assert Ink("") == "";
  }

  lemma SentenceKeepsInk(limit: nat, p: Packing, sent: string)
    ensures InkAll(Closed(AddSentence(limit, p, sent))) == InkAll(Closed(p)) + Ink(sent)
  {
    assert Ink("") == "";
    hide Ink, InkAll, Closed, Strip;
    var q := AddSentence(limit, p, sent);
    ClosedInk(p);
    ClosedInk(q);
    if |p.current| + |sent| + 1 <= limit {
      JoinedInk(p.current, sent);
      Assoc(InkAll(p.units), Ink(p.current), Ink(sent));
      assert Ink(q.current) == Ink(p.current) + Ink(sent);
    } else if p.current != "" {
      InkAllSnoc(p.units, p.current);
    }
  }

  lemma UnitsOfKeepInk(limit: nat, para: string)
    ensures InkAll(UnitsOf(limit, para)) == Ink(para)
  {
    if |para| <= limit {
      InkAllSnoc([], para);
      assert [] + [para] == [para];
    } else {
      var sents := Pieces(Sentences, para, 0);
      hide Ink, InkAll, Closed, AddSentences, Pieces;
      SentencesKeepInk(limit, sents, |sents|);
      InkToWhole(sents);
      PiecesKeepInk(Sentences, para, 0);
      assert para[0..] == para;
    }
  }

  lemma {:induction false} UnitsKeepInk(limit: nat, paras: seq<string>, k: nat)
    requires k <= |paras|
    ensures InkAll(AllUnits(limit, paras, k)) == InkTo(paras, k)
  {
    hide Ink, InkAll, UnitsOf;
    if k > 0 {
      UnitsOfKeepInk(limit, paras[k - 1]);
      UnitsKeepInk(limit, paras, k - 1);
      InkAllConcat(AllUnits(limit, paras, k - 1), UnitsOf(limit, paras[k - 1]));
    } else {
      NothingPacked();
    }
  }

  /** The units hold every character of the text but white space, in order and once. */
  lemma {:induction false} UnitsHoldTheText(limit: nat, text: string)
    ensures InkAll(Units(limit, text)) == Ink(text)
  {
    var pieces, paras := Pieces(Paragraphs, text, 0), ParagraphsOf(text);
    PiecesKeepInk(Paragraphs, text, 0);
    StrippedKeepInk(pieces, |pieces|);
    UnitsKeepInk(limit, paras, |paras|);
    InkToWhole(pieces);
    InkToWhole(paras);
    assert text[0..] == text;
  }

  ghost predicate UpTo(strings: seq<string>, n: nat) {
    forall i :: 0 <= i < |strings| ==> |strings[i]| <= n
  }

  lemma UpToConcat(a: seq<string>, b: seq<string>, n: nat)
    requires UpTo(a, n) && UpTo(b, n)
    ensures UpTo(a + b, n)
  {
  }

  lemma UpToSnoc(a: seq<string>, x: string, n: nat)
    requires UpTo(a, n) && |x| <= n
    ensures UpTo(a + [x], n)
  {
  }

  // No sentence of an oversized paragraph is longer than n.
  ghost predicate SentencesUpTo(limit: nat, paras: seq<string>, n: nat) {
    forall i :: 0 <= i < |paras| && |paras[i]| > limit ==> UpTo(Pieces(Sentences, paras[i], 0), n)
  }

  lemma AddSentenceUpTo(limit: nat, p: Packing, sent: string, n: nat)
    requires limit <= n && |sent| <= n && |p.current| <= n && UpTo(p.units, n)
    ensures var q := AddSentence(limit, p, sent); |q.current| <= n && UpTo(q.units, n)
  {
    hide Strip, UpTo;
    StripKeepsInk(p.current + " " + sent);
    if p.current != "" {
      UpToSnoc(p.units, p.current, n);
    }
  }

  lemma {:induction false} PackedUpTo(limit: nat, sents: seq<string>, k: nat, n: nat)
    requires k <= |sents| && limit <= n && UpTo(sents, n)
    ensures var p := AddSentences(limit, sents, k); |p.current| <= n && UpTo(p.units, n)
  {
    hide AddSentence;
    if k > 0 {
      PackedUpTo(limit, sents, k - 1, n);
      AddSentenceUpTo(limit, AddSentences(limit, sents, k - 1), sents[k - 1], n);
    }
  }

  lemma UnitsOfUpTo(limit: nat, para: string, n: nat)
    requires limit <= n && (|para| > limit ==> UpTo(Pieces(Sentences, para, 0), n))
    ensures UpTo(UnitsOf(limit, para), n)
  {
    if |para| > limit {
      var sents := Pieces(Sentences, para, 0);
      hide Pieces, UpTo, AddSentences;
      PackedUpTo(limit, sents, |sents|, n);
      UpToSnoc(AddSentences(limit, sents, |sents|).units, AddSentences(limit, sents, |sents|).current, n);
    }
  }

  lemma {:induction false} UnitsUpTo(limit: nat, paras: seq<string>, k: nat, n: nat)
    requires k <= |paras| && limit <= n && SentencesUpTo(limit, paras, n)
    ensures UpTo(AllUnits(limit, paras, k), n)
  {
    if k == 0 {
    } else {
      hide UnitsOf, Pieces, UpTo;
      UnitsUpTo(limit, paras, k - 1, n);
      UnitsOfUpTo(limit, paras[k - 1], n);
      UpToConcat(AllUnits(limit, paras, k - 1), UnitsOf(limit, paras[k - 1]), n);
    }
  }

  /** A unit is at most as long as the chunk size or the longest sentence of an oversized paragraph. */
  lemma UnitLength(limit: nat, text: string, n: nat)
    requires limit <= n && SentencesUpTo(limit, ParagraphsOf(text), n)
    ensures UpTo(Units(limit, text), n)
  {
    UnitsUpTo(limit, ParagraphsOf(text), |ParagraphsOf(text)|, n);
  }

  lemma {:induction false} NoInkStripsAway(s: string)
    requires Ink(s) == ""
    ensures StripLeft(s) == ""
  {
    if s != "" {
      NoInkStripsAway(s[1..]);
    }
  }

  lemma {:induction false} NoInkNoPieces(pieces: seq<string>, k: nat)
    requires k <= |pieces| && InkAll(pieces[..k]) == ""
    ensures StrippedNonBlank(pieces, k) == []
  {
    if k > 0 {
      var p := pieces[k - 1];
      InkAllSnoc(pieces[..k - 1], p);
      assert pieces[..k] == pieces[..k - 1] + [p];
      NoInkNoPieces(pieces, k - 1);
      NoInkStripsAway(p);
    }
  }

  lemma BlankHasNoUnits(limit: nat, text: string)
    requires Strip(text) == ""
    ensures Units(limit, text) == []
  {
    var pieces := Pieces(Paragraphs, text, 0);
    StripKeepsInk(text);
    PiecesKeepInk(Paragraphs, text, 0);
    assert text[0..] == text && pieces[..|pieces|] == pieces;
    NoInkNoPieces(pieces, |pieces|);
  }

  method SplitSentences(limit: nat, para: string) returns (units: seq<string>)
    requires |para| > limit
    ensures units == UnitsOf(limit, para)
  {
    var sentences := Pieces(Sentences, para, 0);
    var current := "";
    units := [];
    for k := 0 to |sentences|
      invariant Packing(units, current) == AddSentences(limit, sentences, k)
    {
      var sent := sentences[k];
      if |current| + |sent| + 1 <= limit {
        current := if current != "" then Strip(current + " " + sent) else sent;
      } else {
        if current != "" {
          units := units + [current];
        }
        current := sent;
      }
    }
    if current != "" {
      units := units + [current];
    }
  }

  lemma ShortParagraph(limit: nat, para: string)
    requires |para| <= limit
    ensures UnitsOf(limit, para) == [para]
  {
  }

  // ---------------------------------------------------------------- how units end

  // s is nonempty and its last character is not white space.
  predicate EndsInInk(s: string) {
    s != "" && !IsSpace(s[|s| - 1])
  }

  ghost predicate AllEndInInk(strings: seq<string>) {
    forall i :: 0 <= i < |strings| ==> EndsInInk(strings[i])
  }

  lemma AllEndInInkConcat(a: seq<string>, b: seq<string>)
    requires AllEndInInk(a) && AllEndInInk(b)
    ensures AllEndInInk(a + b)
  {
  }

  lemma {:induction false} StripRightEnds(s: string)
    ensures StripRight(s) == "" || EndsInInk(StripRight(s))
  {
    if s != "" && IsSpace(s[|s| - 1]) {
      StripRightEnds(s[..|s| - 1]);
    }
  }

  lemma StripEnds(s: string)
    ensures Strip(s) == "" || EndsInInk(Strip(s))
  {
    StripRightEnds(StripLeft(s));
  }

  lemma {:induction false} StrippedEnd(pieces: seq<string>, k: nat)
    requires k <= |pieces|
    ensures AllEndInInk(StrippedNonBlank(pieces, k))
  {
    hide Strip, EndsInInk;
    if k > 0 {
      StrippedEnd(pieces, k - 1);
      StripEnds(pieces[k - 1]);
    }
  }

  // Between sentences: never right behind white space, nor at the start.
  lemma {:induction false} SentencesEnd(s: string, i: nat)
    requires i < |s| && EndsInInk(s) && (i == 0 || IsSpace(s[i - 1]))
    ensures AllEndInInk(Pieces(Sentences, s, i))
    decreases |s| - i
  {
    var j := FindBreak(Sentences, s, i);
    if j == |s| {
      assert s[i..][|s| - i - 1] == s[|s| - 1];
    } else {
      assert BreakAt(Sentences, s, j) && i < j;
      SeparatorAdvances(Sentences, s, j);
      var e := SeparatorEnd(Sentences, s, j);
      assert InSeparator(Sentences, s[e - 1]);
      assert e < |s|;
      SentencesEnd(s, e);
      assert s[i..j][j - i - 1] == s[j - 1];
      assert AllEndInInk([s[i..j]]);
      AllEndInInkConcat([s[i..j]], Pieces(Sentences, s, e));
    }
  }

  lemma {:induction false} PackedEnd(limit: nat, sents: seq<string>, k: nat)
    requires k <= |sents| && AllEndInInk(sents)
    ensures var p := AddSentences(limit, sents, k); AllEndInInk(p.units) && (p.current == "" || EndsInInk(p.current))
  {
    hide EndsInInk, Strip;
    if k > 0 {
      PackedEnd(limit, sents, k - 1);
      StripEnds(AddSentences(limit, sents, k - 1).current + " " + sents[k - 1]);
    }
  }

  lemma UnitsOfEnd(limit: nat, para: string)
    requires EndsInInk(para)
    ensures AllEndInInk(UnitsOf(limit, para))
  {
    hide EndsInInk;
    if |para| > limit {
      var sents := Pieces(Sentences, para, 0);
      assert para != "" by {
        NotEmpty(para);
      }
      SentencesEnd(para, 0);
      hide Pieces;
      PackedEnd(limit, sents, |sents|);
    }
  }

  lemma NotEmpty(s: string)
    requires EndsInInk(s)
    ensures s != ""
  {
  }

  lemma {:induction false} AllUnitsEnd(limit: nat, paras: seq<string>, k: nat)
    requires k <= |paras| && AllEndInInk(paras)
    ensures AllEndInInk(AllUnits(limit, paras, k))
  {
    if k > 0 {
      UnitsOfEnd(limit, paras[k - 1]);
      hide UnitsOf, EndsInInk;
      AllUnitsEnd(limit, paras, k - 1);
      AllEndInInkConcat(AllUnits(limit, paras, k - 1), UnitsOf(limit, paras[k - 1]));
    }
  }

  /** No unit of a text is empty or ends in white space. */
  lemma UnitsEndInInk(limit: nat, text: string)
    ensures AllEndInInk(Units(limit, text))
  {
    var pieces := Pieces(Paragraphs, text, 0);
    StrippedEnd(pieces, |pieces|);
    AllUnitsEnd(limit, ParagraphsOf(text), |ParagraphsOf(text)|);
  }
}
