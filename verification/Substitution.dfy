/**
  Literal search and replace, as `gsub` of awk and `s///g` of sed do it for patterns
  without special characters, and chains of such replacements over lines in which
  `__NAME__` marks a place to fill (scripts/deploy/render-infra-caddyfile.sh,
  scripts/deploy/render-postgres-runtime.sh).
 */
module Substitution {

  // ---------- the text operations ----------

  /** Leftmost first, then on behind the match; the replacement is not searched again. */
  function ReplaceAll(text: string, pattern: string, value: string): string
    requires pattern != []
    decreases |text|
  {
    if text == [] then []
    else if pattern <= text then value + ReplaceAll(text[|pattern|..], pattern, value)
    else [text[0]] + ReplaceAll(text[1..], pattern, value)
  }

  /** In a replacement, `&` stands for what was matched. */
  function Expand(replacement: string, matched: string): string {
    if replacement == [] then []
    else (if replacement[0] == '&' then matched else [replacement[0]]) + Expand(replacement[1..], matched)
  }

  function Placeholder(name: string): string { "__" + name + "__" }

  datatype Binding = Binding(name: string, value: string)

  /** One pass over the line for each binding, in order. */
  function Chain(text: string, bindings: seq<Binding>): string
    decreases |bindings|
  {
    if bindings == [] then text
    else
      var pattern := Placeholder(bindings[0].name);
      Chain(ReplaceAll(text, pattern, Expand(bindings[0].value, pattern)), bindings[1..])
  }

  function ChainLines(lines: seq<string>, bindings: seq<Binding>): (out: seq<string>)
    ensures |out| == |lines| && forall i :: 0 <= i < |lines| ==> out[i] == Chain(lines[i], bindings)
  {
    seq(|lines|, i requires 0 <= i < |lines| => Chain(lines[i], bindings))
  }

  // ---------- lines with holes ----------

  datatype Line = End(text: string) | Hole(before: string, name: string, after: Line)

  function Text(line: Line): string {
    match line
    case End(text) => text
    case Hole(before, name, after) => before + (Placeholder(name) + Text(after))
  }

  /** Fill every hole that has a value, all at once. */
  function FillAll(line: Line, values: map<string, string>): string {
    match line
    case End(text) => text
    case Hole(before, name, after) =>
      before + ((if name in values then values[name] else Placeholder(name)) + FillAll(after, values))
  }

  /** No double underscore, and none at either end. */
  ghost predicate Quiet(text: string) {
    forall i :: 0 <= i < |text| && text[i] == '_' ==> 0 < i < |text| - 1 && text[i + 1] != '_'
  }

  predicate NameChar(c: char) { c == '_' || 'A' <= c <= 'Z' || '0' <= c <= '9' }

  ghost predicate IsName(name: string) {
    name != [] && Quiet(name) && forall i :: 0 <= i < |name| ==> NameChar(name[i])
  }

  /** Text between two holes must not look like a name, or it would be one. */
  ghost predicate Separates(text: string) {
    exists i :: 0 <= i < |text| && !NameChar(text[i])
  }

  ghost predicate WellFormed(line: Line) {
    match line
    case End(text) => Quiet(text)
    case Hole(before, name, after) =>
      Quiet(before) && IsName(name) && WellFormed(after) && (after.Hole? ==> Separates(after.before))
  }

  /** A replacement that stands for itself; what a backslash does in one is not modelled. */
  ghost predicate PlainValue(value: string) { Quiet(value) && '&' !in value && '\\' !in value }

  ghost predicate GoodNames(bindings: seq<Binding>) {
    && (forall i :: 0 <= i < |bindings| ==> IsName(bindings[i].name))
    && (forall i, j :: 0 <= i < j < |bindings| ==> bindings[i].name != bindings[j].name)
  }

  ghost predicate GoodBindings(bindings: seq<Binding>) {
    GoodNames(bindings) && forall i :: 0 <= i < |bindings| ==> PlainValue(bindings[i].value)
  }

  function ValueMap(bindings: seq<Binding>): map<string, string>
    decreases |bindings|
  {
    if bindings == [] then map[] else ValueMap(bindings[1..])[bindings[0].name := bindings[0].value]
  }

  predicate Gives(values: map<string, string>, name: string, value: string) {
    name in values && values[name] == value
  }

  predicate AllBound(line: Line, names: set<string>) {
    line.Hole? ==> line.name in names && AllBound(line.after, names)
  }

  // ---------- one replacement ----------

  function Prepend(text: string, line: Line): Line {
    match line
    case End(t) => End(text + t)
    case Hole(before, name, after) => Hole(text + before, name, after)
  }

  function Fill(line: Line, name: string, value: string): Line {
    match line
    case End(text) => line
    case Hole(before, n, after) =>
      if n == name then Prepend(before + value, Fill(after, name, value))
      else Hole(before, n, Fill(after, name, value))
  }

  lemma {:induction false} ScanPast(prefix: string, rest: string, pattern: string, value: string)
    requires pattern != []
    requires forall i :: 0 <= i < |prefix| ==> !(pattern <= (prefix + rest)[i..])
    ensures ReplaceAll(prefix + rest, pattern, value) == prefix + ReplaceAll(rest, pattern, value)
  {
    if prefix == [] {
      assert prefix + rest == rest;
    } else {
      assert (prefix + rest)[0..] == prefix + rest;
      assert (prefix + rest)[1..] == prefix[1..] + rest;
      forall i | 0 <= i < |prefix[1..]| ensures !(pattern <= (prefix[1..] + rest)[i..]) {
        assert (prefix[1..] + rest)[i..] == (prefix + rest)[i + 1..];
      }
      ScanPast(prefix[1..], rest, pattern, value);
    }
  }

  lemma QuietConcat(a: string, b: string)
    requires Quiet(a) && Quiet(b)
    ensures Quiet(a + b)
  {
    forall i | 0 <= i < |a + b| && (a + b)[i] == '_' ensures 0 < i < |a + b| - 1 && (a + b)[i + 1] != '_' {
      if i < |a| { assert a[i] == '_'; } else { assert b[i - |a|] == '_'; }
    }
  }

  /** Two texts that differ at `k`, if the second is that long. */
  lemma Mismatch(pattern: string, text: string, k: nat)
    requires k < |pattern| && (k < |text| ==> pattern[k] != text[k])
    ensures !(pattern <= text)
  {
  }

  lemma PrefixTail(prefix: string, a: string, b: string)
    requires prefix + a <= prefix + b
    ensures a <= b
  {
    assert a == (prefix + a)[|prefix|..] && b == (prefix + b)[|prefix|..];
  }

  /** No placeholder starts inside a quiet text, whatever follows it. */
  lemma NoMatchInQuiet(text: string, rest: string, name: string, i: nat)
    requires Quiet(text) && i < |text|
    ensures !(Placeholder(name) <= (text + rest)[i..])
  {
    Mismatch(Placeholder(name), (text + rest)[i..], if text[i] == '_' then 1 else 0);
  }

  /** What may follow a hole: nothing that completes a placeholder begun inside it. */
  ghost predicate Harmless(rest: string, name: string) {
    (rest != [] ==> rest[0] != '_') && !(name + "__" <= rest)
  }

  lemma RestIsHarmless(line: Line, name: string)
    requires WellFormed(line) && (line.Hole? ==> Separates(line.before)) && IsName(name)
    ensures Harmless(Text(line), name)
  {
    var front := if line.End? then line.text else line.before;
    var n := |name|;
    if n < |front| {
      Mismatch(name + "__", Text(line), if front[n] == '_' then n + 1 else n);
    } else if line.Hole? {
      var j :| 0 <= j < |front| && !NameChar(front[j]);
      Mismatch(name + "__", Text(line), j);
    }
  }

  /** No other placeholder starts inside a hole. */
  lemma NoMatchInHole(n: string, name: string, rest: string, i: nat)
    requires IsName(n) && IsName(name) && n != name && Harmless(rest, name)
    requires i < |Placeholder(n)|
    ensures !(Placeholder(name) <= (Placeholder(n) + rest)[i..])
  {
    var text := (Placeholder(n) + rest)[i..];
    if i == 0 {
      DifferentNames(n, name, rest);
    } else if i == |n| + 2 {
      assert text == "__" + rest && Placeholder(name) == "__" + (name + "__");
      if Placeholder(name) <= text { PrefixTail("__", name + "__", rest); }
    } else if i == 1 || i == |n| + 3 {
      Mismatch(Placeholder(name), text, 1);
    } else {
      Mismatch(Placeholder(name), text, if n[i - 2] == '_' then 1 else 0);
    }
  }

  lemma DifferentNames(n: string, name: string, rest: string)
    requires IsName(n) && IsName(name) && n != name
    ensures !(Placeholder(name) <= Placeholder(n) + rest)
  {
    var k := if |name| < |n| then |name| + (if n[|name|] == '_' then 1 else 0)
             else if |n| < |name| then |n| + (if name[|n|] == '_' then 1 else 0)
             else FirstDifference(n, name);
    Mismatch(Placeholder(name), Placeholder(n) + rest, k + 2);
  }

  function FirstDifference(a: string, b: string): (k: nat)
    requires |a| == |b| && a != b
    ensures k < |a| && a[k] != b[k]
  {
    if a[0] != b[0] then 0 else 1 + FirstDifference(a[1..], b[1..])
  }

  lemma TextOfPrepend(text: string, line: Line)
    ensures Text(Prepend(text, line)) == text + Text(line)
  {
  }

  lemma SkipQuiet(text: string, rest: string, name: string, value: string)
    requires Quiet(text)
    ensures ReplaceAll(text + rest, Placeholder(name), value) == text + ReplaceAll(rest, Placeholder(name), value)
  {
    forall i | 0 <= i < |text| ensures !(Placeholder(name) <= (text + rest)[i..]) {
      NoMatchInQuiet(text, rest, name, i);
    }
    ScanPast(text, rest, Placeholder(name), value);
  }

  lemma SkipHole(n: string, rest: string, name: string, value: string)
    requires IsName(n) && IsName(name) && n != name && Harmless(rest, name)
    ensures ReplaceAll(Placeholder(n) + rest, Placeholder(name), value)
         == Placeholder(n) + ReplaceAll(rest, Placeholder(name), value)
  {
    forall i | 0 <= i < |Placeholder(n)| ensures !(Placeholder(name) <= (Placeholder(n) + rest)[i..]) {
      NoMatchInHole(n, name, rest, i);
    }
    ScanPast(Placeholder(n), rest, Placeholder(name), value);
  }

  lemma FillHole(name: string, rest: string, value: string)
    ensures ReplaceAll(Placeholder(name) + rest, Placeholder(name), value)
         == value + ReplaceAll(rest, Placeholder(name), value)
  {
    assert (Placeholder(name) + rest)[|Placeholder(name)|..] == rest;
  }

  lemma Regroup(a: string, b: string, c: string)
    ensures a + (b + c) == a + b + c
  {
  }

  /** Replacing a placeholder in the text fills exactly the holes of that name. */
  lemma {:induction false} ReplaceIsFill(line: Line, name: string, value: string)
    requires WellFormed(line) && IsName(name)
    ensures ReplaceAll(Text(line), Placeholder(name), value) == Text(Fill(line, name, value))
  {
    match line
    case End(text) =>
      SkipQuiet(text, [], name, value);
      assert text + [] == text;
    case Hole(before, n, after) =>
      SkipQuiet(before, Placeholder(n) + Text(after), name, value);
      ReplaceIsFill(after, name, value);
      if n == name {
        FillHole(name, Text(after), value);
        TextOfPrepend(before + value, Fill(after, name, value));
        Regroup(before, value, Text(Fill(after, name, value)));
      } else {
        RestIsHarmless(after, name);
        SkipHole(n, Text(after), name, value);
      }
  }

  lemma {:induction false} FillStaysWellFormed(line: Line, name: string, value: string)
    requires WellFormed(line) && Quiet(value)
    ensures WellFormed(Fill(line, name, value))
    ensures Fill(line, name, value).Hole? ==> line.Hole? && line.before <= Fill(line, name, value).before
  {
    if line.Hole? {
      FillStaysWellFormed(line.after, name, value);
      var filled := Fill(line.after, name, value);
      if line.after.Hole? && filled.Hole? {
        var i :| 0 <= i < |line.after.before| && !NameChar(line.after.before[i]);
        assert !NameChar(filled.before[i]);
      }
      if line.name == name {
        QuietConcat(line.before, value);
        QuietConcat(line.before + value, if filled.End? then filled.text else filled.before);
      }
    }
  }

  // ---------- a chain of replacements ----------

  /** `&` is the only character of a replacement that does not stand for itself. */
  lemma {:induction false} ExpandPlain(value: string, matched: string)
    requires |matched| >= 2
    ensures |Expand(value, matched)| >= |value|
    ensures Expand(value, matched) == value <==> '&' !in value
  {
    if value != [] {
      ExpandPlain(value[1..], matched);
      assert value == [value[0]] + value[1..];
      if value[0] == '&' {
        assert |Expand(value, matched)| > |value|;
      } else {
        assert Expand(value, matched)[1..] == Expand(value[1..], matched);
      }
    }
  }

  lemma {:induction false} ExpandConcat(a: string, b: string, matched: string)
    ensures Expand(a + b, matched) == Expand(a, matched) + Expand(b, matched)
  {
    if a == [] {
      assert a + b == b;
    } else {
      assert (a + b)[1..] == a[1..] + b;
      ExpandConcat(a[1..], b, matched);
    }
  }

  /** A `&` inserts what was matched. */
  lemma ExpandInserts(before: string, after: string, matched: string)
    ensures Expand(before + "&" + after, matched) == Expand(before, matched) + matched + Expand(after, matched)
  {
    ExpandConcat(before + "&", after, matched);
    ExpandConcat(before, "&", matched);
    assert "&"[1..] == "";
  }

  lemma {:induction false} FillThenFillAll(line: Line, name: string, value: string, values: map<string, string>)
    requires name !in values
    ensures FillAll(Fill(line, name, value), values) == FillAll(line, values[name := value])
  {
    if line.Hole? {
      var filled := Fill(line.after, name, value);
      FillThenFillAll(line.after, name, value, values);
      if line.name == name {
        var tail := FillAll(filled, values);
        assert FillAll(Prepend(line.before + value, filled), values) == line.before + value + tail by {
          if filled.Hole? {
            var inner := (if filled.name in values then values[filled.name] else Placeholder(filled.name))
                         + FillAll(filled.after, values);
            assert line.before + value + filled.before + inner == line.before + value + (filled.before + inner);
          }
        }
        assert line.before + value + tail == line.before + (value + tail);
      }
    }
  }

  lemma {:induction false} BoundNames(bindings: seq<Binding>, name: string)
    ensures name in ValueMap(bindings) <==> exists i :: 0 <= i < |bindings| && bindings[i].name == name
    decreases |bindings|
  {
    if bindings != [] {
      BoundNames(bindings[1..], name);
      assert forall i :: 0 <= i < |bindings[1..]| ==> bindings[1..][i] == bindings[i + 1];
      if i :| 0 <= i < |bindings| && bindings[i].name == name && i > 0 { assert bindings[1..][i - 1].name == name; }
    }
  }

  /** One pass after the other fills the holes as if all at once. */
  lemma {:induction false} ChainIsSimultaneous(line: Line, bindings: seq<Binding>)
    requires WellFormed(line) && GoodBindings(bindings)
    ensures Chain(Text(line), bindings) == FillAll(line, ValueMap(bindings))
    decreases |bindings|
  {
    if bindings == [] {
      NothingToFill(line);
    } else {
      var b, rest := bindings[0], bindings[1..];
      ExpandPlain(b.value, Placeholder(b.name));
      ReplaceIsFill(line, b.name, b.value);
      FillStaysWellFormed(line, b.name, b.value);
      ChainIsSimultaneous(Fill(line, b.name, b.value), rest);
      BoundNames(rest, b.name);
      FillThenFillAll(line, b.name, b.value, ValueMap(rest));
    }
  }

  lemma {:induction false} QuietChain(text: string, bindings: seq<Binding>)
    requires Quiet(text)
    ensures Chain(text, bindings) == text
    decreases |bindings|
  {
    if bindings != [] {
      var pattern := Placeholder(bindings[0].name);
      SkipQuiet(text, [], bindings[0].name, Expand(bindings[0].value, pattern));
      assert text + [] == text;
      QuietChain(text, bindings[1..]);
    }
  }

  /** A hole alone on its line becomes its value, whatever the other values are. */
  lemma {:induction false} ChainOfHole(bindings: seq<Binding>, k: nat)
    requires GoodNames(bindings) && k < |bindings| && PlainValue(bindings[k].value)
    ensures Chain(Placeholder(bindings[k].name), bindings) == bindings[k].value
    decreases |bindings|
  {
    var hole := Placeholder(bindings[k].name);
    var value := Expand(bindings[0].value, Placeholder(bindings[0].name));
    assert hole + [] == hole;
    if k == 0 {
      ExpandPlain(bindings[0].value, hole);
      FillHole(bindings[0].name, [], value);
      assert value + [] == value;
      QuietChain(value, bindings[1..]);
    } else {
      SkipHole(bindings[k].name, [], bindings[0].name, value);
      ChainOfHole(bindings[1..], k - 1);
    }
  }

  lemma {:induction false} NothingToFill(line: Line)
    ensures FillAll(line, map[]) == Text(line)
  {
    if line.Hole? { NothingToFill(line.after); }
  }

  /** The order of the passes does not matter. */
  lemma ChainOrderIrrelevant(line: Line, bindings: seq<Binding>, reordered: seq<Binding>)
    requires WellFormed(line) && GoodBindings(bindings) && GoodBindings(reordered)
    requires multiset(bindings) == multiset(reordered)
    ensures Chain(Text(line), bindings) == Chain(Text(line), reordered)
  {
    ChainIsSimultaneous(line, bindings);
    ChainIsSimultaneous(line, reordered);
    forall name ensures name in ValueMap(bindings) <==> name in ValueMap(reordered)
      ensures name in ValueMap(bindings) ==> ValueMap(bindings)[name] == ValueMap(reordered)[name]
    {
      SameBinding(bindings, reordered, name);
      SameBinding(reordered, bindings, name);
    }
    assert ValueMap(bindings) == ValueMap(reordered);
  }

  lemma SameBinding(bindings: seq<Binding>, reordered: seq<Binding>, name: string)
    requires GoodBindings(bindings) && GoodBindings(reordered) && multiset(bindings) == multiset(reordered)
    ensures name in ValueMap(bindings) ==>
              name in ValueMap(reordered) && ValueMap(bindings)[name] == ValueMap(reordered)[name]
  {
    BoundNames(bindings, name);
    if name in ValueMap(bindings) {
      var i :| 0 <= i < |bindings| && bindings[i].name == name;
      assert bindings[i] in multiset(reordered);
      var j :| 0 <= j < |reordered| && reordered[j] == bindings[i];
      ValueOf(bindings, i);
      ValueOf(reordered, j);
    }
  }

  lemma {:induction false} ValueOf(bindings: seq<Binding>, i: nat)
    requires GoodNames(bindings) && i < |bindings|
    ensures bindings[i].name in ValueMap(bindings) && ValueMap(bindings)[bindings[i].name] == bindings[i].value
    decreases |bindings|
  {
    if i > 0 { ValueOf(bindings[1..], i - 1); }
  }

  /** With a value for every hole, no placeholder is left: not even a double underscore. */
  lemma {:induction false} NothingSurvives(line: Line, bindings: seq<Binding>)
    requires WellFormed(line) && GoodBindings(bindings) && AllBound(line, ValueMap(bindings).Keys)
    ensures Quiet(Chain(Text(line), bindings))
  {
    ChainIsSimultaneous(line, bindings);
    forall name | name in ValueMap(bindings) ensures Quiet(ValueMap(bindings)[name]) {
      BoundNames(bindings, name);
      var i :| 0 <= i < |bindings| && bindings[i].name == name;
      ValueOf(bindings, i);
    }
    FilledIsQuiet(line, ValueMap(bindings));
  }

  lemma {:induction false} FilledIsQuiet(line: Line, values: map<string, string>)
    requires WellFormed(line) && AllBound(line, values.Keys)
    requires forall name :: name in values ==> Quiet(values[name])
    ensures Quiet(FillAll(line, values))
  {
    if line.Hole? {
      FilledIsQuiet(line.after, values);
      QuietConcat(values[line.name], FillAll(line.after, values));
      QuietConcat(line.before, values[line.name] + FillAll(line.after, values));
    }
  }
}
