/** render_template: one left-to-right pass that replaces {{input}} and {{step_N.result}}. */
module Templates {
  import opened Wrappers
  import opened Decimals

  datatype Var = Input | Step(digits: string)

  // \d+ behind "step_"
  predicate IsVar(v: Var) {
    v.Step? ==> v.digits != "" && forall i :: 0 <= i < |v.digits| ==> IsDigit(v.digits[i])
  }

  const OPEN := "{{step_"
  const CLOSE := ".result}}"

  function Source(v: Var): string {
    match v case Input => "{{input}}" case Step(digits) => OPEN + digits + CLOSE
  }

  function DigitsEnd(s: string, i: nat): (j: nat)
    requires i <= |s|
    ensures i <= j <= |s| && (forall k :: i <= k < j ==> IsDigit(s[k])) && (j < |s| ==> !IsDigit(s[j]))
    decreases |s| - i
  {
    if i < |s| && IsDigit(s[i]) then DigitsEnd(s, i + 1) else i
  }

  // The variable that the pattern matches at the start of s.
  function MatchAt(s: string): Option<Var> {
    if "{{input}}" <= s then Some(Input)
    else if OPEN <= s && DigitsEnd(s, |OPEN|) > |OPEN| && CLOSE <= s[DigitsEnd(s, |OPEN|)..] then
      Some(Step(s[|OPEN|..DigitsEnd(s, |OPEN|)]))
    else None
  }

  function Subst(v: Var, input: string, results: seq<Option<string>>): string
    requires IsVar(v)
  {
    match v
    case Input => input
    case Step(digits) =>
      var n := Numeral(digits);
      if n < |results| then (if results[n].Some? then results[n].value else "") else Source(v)
  }

  lemma MatchedVar(s: string)
    ensures MatchAt(s).Some? ==> IsVar(MatchAt(s).value) && Source(MatchAt(s).value) <= s
  {
    var j := if OPEN <= s then DigitsEnd(s, |OPEN|) else 0;
    if MatchAt(s).Some? && MatchAt(s).value.Step? {
      assert s[..j] == OPEN + s[|OPEN|..j];
      assert s == s[..j] + s[j..];
    }
  }

  lemma {:induction false} DigitsEndAt(s: string, i: nat, j: nat)
    requires i <= j < |s| && (forall k :: i <= k < j ==> IsDigit(s[k])) && !IsDigit(s[j])
    ensures DigitsEnd(s, i) == j
    decreases j - i
  {
    if i < j {
      DigitsEndAt(s, i + 1, j);
    }
  }

  // The pattern matches exactly where some variable stands.
  lemma SourceMatches(v: Var, s: string)
    requires IsVar(v) && Source(v) <= s
    ensures MatchAt(s) == Some(v)
  {
    assert Source(v) == s[..|Source(v)|];
    if v.Step? {
      var j := |OPEN| + |v.digits|;
      assert s[2] == Source(v)[2] == 's';
      assert s[|OPEN|..j] == v.digits;
      assert s[j..j + |CLOSE|] == CLOSE;
      assert forall k :: |OPEN| <= k < j ==> s[k] == v.digits[k - |OPEN|];
      assert s[j] == CLOSE[0];
      DigitsEndAt(s, |OPEN|, j);
      assert OPEN <= s && CLOSE <= s[j..];
    }
  }

  function Render(text: string, input: string, results: seq<Option<string>>): string {
    if text == "" then ""
    else
      MatchedVar(text);
      match MatchAt(text)
      case Some(v) => Subst(v, input, results) + Render(text[|Source(v)|..], input, results)
      case None => [text[0]] + Render(text[1..], input, results)
  }

  // ---------------------------------------------------------------- the template behind a text

  datatype Template = Done(plain: string) | Then(plain: string, v: Var, rest: Template)

  function Text(t: Template): string {
    match t
    case Done(plain) => plain
    case Then(plain, v, rest) => plain + (Source(v) + Text(rest))
  }

  // No variable stands in s.
  predicate Plain(s: string) {
    forall i :: 0 <= i < |s| ==> MatchAt(s[i..]) == None
  }

  predicate WellFormed(t: Template) {
    Plain(t.plain) && (t.Then? ==> IsVar(t.v) && WellFormed(t.rest))
  }

  function Filled(t: Template, input: string, results: seq<Option<string>>): string
    requires WellFormed(t)
  {
    match t
    case Done(plain) => plain
    case Then(plain, v, rest) => plain + (Subst(v, input, results) + Filled(rest, input, results))
  }

  function Parse(text: string): Template {
    if text == "" then Done("")
    else
      MatchedVar(text);
      match MatchAt(text)
      case Some(v) => Then("", v, Parse(text[|Source(v)|..]))
      case None => Prepend(text[0], Parse(text[1..]))
  }

  // A variable's only opening braces are its first two characters.
  lemma OpeningBraces(v: Var, i: nat)
    requires IsVar(v) && 2 <= i < |Source(v)|
    ensures Source(v)[i] != '{'
  {
    if v.Step? && i >= |OPEN| {
      var d := v.digits;
      assert Source(v)[i] == if i < |OPEN| + |d| then d[i - |OPEN|] else CLOSE[i - |OPEN| - |d|];
    }
  }

  // A variable at the start of s ends before the next pair of opening braces.
  lemma EndsBeforeBraces(w: Var, s: string, n: nat)
    requires IsVar(w) && Source(w) <= s && 0 < n && n + 1 < |s| && s[n] == s[n + 1] == '{'
    ensures |Source(w)| <= n
  {
    if n < |Source(w)| {
      OpeningBraces(w, if n == 1 then 2 else n);
      assert false;
    }
  }

  // Nothing that starts before a variable reaches into it.
  lemma MatchStopsShort(plain: string, v: Var, rest: string)
    requires plain != "" && IsVar(v)
    ensures MatchAt(plain + (Source(v) + rest)) == MatchAt(plain)
  {
    var s := plain + (Source(v) + rest);
    var n := |plain|;
    assert s[n] == Source(v)[0] == '{' && s[n + 1] == Source(v)[1] == '{';
    hide MatchAt, Source, IsVar;
    MatchedVar(plain);
    MatchedVar(s);
    if MatchAt(plain).Some? {
      SourceMatches(MatchAt(plain).value, s);
    } else if MatchAt(s).Some? {
      var w := MatchAt(s).value;
      EndsBeforeBraces(w, s, n);
      assert Source(w) <= plain;
      SourceMatches(w, plain);
    }
  }

  lemma PlainTail(s: string)
    requires Plain(s) && s != ""
    ensures MatchAt(s) == None && Plain(s[1..])
  {
    assert s[0..] == s;
    forall i | 0 <= i < |s| - 1
      ensures MatchAt(s[1..][i..]) == None
    {
      assert s[1..][i..] == s[i + 1..];
    }
  }

  lemma PlainCons(c: char, s: string)
    requires Plain(s) && MatchAt([c] + s) == None
    ensures Plain([c] + s)
  {
    forall i | 0 <= i < |s| + 1
      ensures MatchAt(([c] + s)[i..]) == None
    {
      if i > 0 {
        assert ([c] + s)[i..] == s[i - 1..];
      } else {
        assert ([c] + s)[0..] == [c] + s;
      }
    }
  }

  function Prepend(c: char, t: Template): Template {
    t.(plain := [c] + t.plain)
  }

  lemma ParseVar(text: string, v: Var)
    requires text != "" && MatchAt(text) == Some(v)
    ensures IsVar(v) && Source(v) <= text && Parse(text) == Then("", v, Parse(text[|Source(v)|..]))
  {
    MatchedVar(text);
    hide MatchAt;
  }

  lemma ParseChar(text: string)
    requires text != "" && MatchAt(text).None?
    ensures Parse(text) == Prepend(text[0], Parse(text[1..]))
  {
    hide MatchAt;
  }

  lemma TextPrepend(c: char, t: Template)
    ensures Text(Prepend(c, t)) == [c] + Text(t)
  {
    hide Source;
    if t.Then? {
      Associate([c], t.plain, Source(t.v) + Text(t.rest));
    }
  }

  lemma Associate(a: string, b: string, c: string)
    ensures (a + b) + c == a + (b + c)
  {
  }

  // Whether the pattern matches at the start of a text that does not start with a variable, its first plain
  // piece decides.
  lemma PlainPieceDecides(t: Template)
    requires t.plain != "" && (t.Then? ==> IsVar(t.v))
    ensures MatchAt(Text(t)) == MatchAt(t.plain)
  {
    hide MatchAt, IsVar;
    if t.Then? {
      MatchStopsShort(t.plain, t.v, Text(t.rest));
    }
  }

  lemma WellFormedPrepend(c: char, t: Template)
    requires WellFormed(t) && MatchAt([c] + Text(t)).None?
    ensures WellFormed(Prepend(c, t))
  {
    hide MatchAt, IsVar, Plain;
    TextPrepend(c, t);
    PlainPieceDecides(Prepend(c, t));
    PlainCons(c, t.plain);
  }

  lemma NothingIsPlain()
    ensures Plain("") && WellFormed(Parse("")) && Text(Parse("")) == ""
  {
  }

  lemma WellFormedVar(v: Var, t: Template)
    requires IsVar(v) && WellFormed(t)
    ensures WellFormed(Then("", v, t)) && Text(Then("", v, t)) == Source(v) + Text(t)
  {
    NothingIsPlain();
    hide IsVar, Plain, Source;
    assert "" + (Source(v) + Text(t)) == Source(v) + Text(t);
  }

  /** Every text is a template: plain pieces in which no variable stands, with variables between them. */
  lemma {:induction false} ParseDecomposes(text: string)
    ensures WellFormed(Parse(text)) && Text(Parse(text)) == text
  {
    hide MatchAt, IsVar, Plain, Parse, Text, WellFormed, Prepend;
    if text == "" {
      NothingIsPlain();
    } else if MatchAt(text).Some? {
      var v := MatchAt(text).value;
      ParseVar(text, v);
      var rest := text[|Source(v)|..];
      ParseDecomposes(rest);
      WellFormedVar(v, Parse(rest));
      assert text == Source(v) + rest;
    } else {
      ParseChar(text);
      ParseDecomposes(text[1..]);
      TextPrepend(text[0], Parse(text[1..]));
      assert text == [text[0]] + text[1..];
      WellFormedPrepend(text[0], Parse(text[1..]));
    }
  }

  // A template that starts with a character, without it.
  lemma Shorter(t: Template)
    requires WellFormed(t) && t.plain != ""
    ensures var u := t.(plain := t.plain[1..]);
      WellFormed(u) && t == Prepend(t.plain[0], u) && MatchAt(Text(t)).None?
  {
    hide MatchAt, IsVar, Plain;
    PlainTail(t.plain);
    PlainPieceDecides(t);
    assert t.plain == [t.plain[0]] + t.plain[1..];
  }

  /** And of only one: reading back the text of a template gives the template. */
  lemma {:induction false} ParseIsUnique(t: Template)
    requires WellFormed(t)
    ensures Parse(Text(t)) == t
    decreases |Text(t)|
  {
    if t.plain != "" {
      hide MatchAt, Parse, Text, WellFormed, Prepend;
      var u := t.(plain := t.plain[1..]);
      Shorter(t);
      TextPrepend(t.plain[0], u);
      ParseIsUnique(u);
      ParseChar(Text(t));
      assert Text(t)[1..] == Text(u);
    } else if t.Then? {
      StartsWithVar(t);
      hide MatchAt, IsVar, Parse, Text;
      ParseIsUnique(t.rest);
      ParseVar(Text(t), t.v);
    }
  }

  lemma StartsWithVar(t: Template)
    requires WellFormed(t) && t.Then? && t.plain == ""
    ensures IsVar(t.v) && WellFormed(t.rest) && Text(t) != "" && MatchAt(Text(t)) == Some(t.v)
    ensures |Text(t.rest)| < |Text(t)| && Source(t.v) <= Text(t) && Text(t)[|Source(t.v)|..] == Text(t.rest)
  {
    assert Text(t) == Source(t.v) + Text(t.rest);
    SourceMatches(t.v, Text(t));
    hide MatchAt, Plain;
  }

  lemma {:induction false} RenderFills(text: string, input: string, results: seq<Option<string>>)
    ensures WellFormed(Parse(text)) && Render(text, input, results) == Filled(Parse(text), input, results)
  {
    ParseDecomposes(text);
    hide MatchAt, IsVar, Plain, Subst, Text, Source;
    if text != "" {
      MatchedVar(text);
      if MatchAt(text).Some? {
        RenderFills(text[|Source(MatchAt(text).value)|..], input, results);
      } else {
        RenderFills(text[1..], input, results);
      }
    }
  }

  /** Rendering is one pass: wherever a variable stands in a text it is replaced, plain pieces stay, and what
      is put in, whatever it contains, is not looked at again. */
  lemma RenderIsOnePass(t: Template, input: string, results: seq<Option<string>>)
    requires WellFormed(t)
    ensures Render(Text(t), input, results) == Filled(t, input, results)
  {
    ParseIsUnique(t);
    RenderFills(Text(t), input, results);
  }

  /** In a text, {{input}} stands for the input, {{step_N.result}} with N in decimal for the result of step N, nothing
      if that step had none, and for itself if there is no such step yet. */
  lemma {:induction false} VariablesMean(n: nat, input: string, results: seq<Option<string>>)
    ensures Render("{{input}}", input, results) == input
    ensures var text := "{{step_" + Decimal(n) + ".result}}";
      Render(text, input, results)
        == if n >= |results| then text else if results[n].Some? then results[n].value else ""
  {
    OneVariable(Input, input, results);
    OneVariable(Step(Decimal(n)), input, results);
    DecimalReads(n);
    assert Source(Step(Decimal(n))) == "{{step_" + Decimal(n) + ".result}}";
    hide Render, Numeral;
  }

  lemma OneVariable(v: Var, input: string, results: seq<Option<string>>)
    requires IsVar(v)
    ensures Render(Source(v), input, results) == Subst(v, input, results)
  {
    SourceMatches(v, Source(v));
    assert Source(v) != "" && Source(v)[|Source(v)|..] == "";
    hide MatchAt, Source, Subst;
    assert Render("", input, results) == "";
    assert Subst(v, input, results) + "" == Subst(v, input, results);
  }
}
