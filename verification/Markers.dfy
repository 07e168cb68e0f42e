/**
  The marker patterns of scripts/deploy/render-infra-caddyfile.sh as they are written there,
  which lines they match, and what that does to a section.
 */
module Markers {
  import opened Wrappers
  import opened Substitution
  import opened Sections

  /** The fourteen patterns, in the order in which the program tries them. */
  function Pattern(i: nat): string
    requires i < 14
  {
    match i
    case 0 => "__SENTRY_BLOCK_START__"
    case 1 => "__SENTRY_BLOCK_END__"
    case 2 => "__SENTRY_PROXY_START__"
    case 3 => "__SENTRY_PROXY_END__"
    case 4 => "__NOFEEBOOKING_BLOCK_START__"
    case 5 => "__NOFEEBOOKING_BLOCK_END__"
    case 6 => "__NOFEEBOOKING_STATIC_START__"
    case 7 => "__NOFEEBOOKING_STATIC_END__"
    case 8 => "__NOFEEBOOKING_PROXY_START__"
    case 9 => "__NOFEEBOOKING_PROXY_END__"
    case 10 => "__STORJ_BLOCK_START__"
    case 11 => "__STORJ_BLOCK_END__"
    case 12 => "__STORJ_PROXY_START__"
    case _ => "__STORJ_PROXY_END__"
  }

  // ---------- what it is to contain a pattern ----------

  ghost predicate OccursAt(text: string, pattern: string, i: nat) {
    && i + |pattern| <= |text|
    && forall k :: 0 <= k < |pattern| ==> text[i + k] == pattern[k]
  }

  lemma {:induction false} ContainsAt(text: string, pattern: string, i: nat)
    requires OccursAt(text, pattern, i)
    ensures Contains(text, pattern)
  {
    if i == 0 {
      assert pattern == text[..|pattern|];
    } else {
      assert forall k :: 0 <= k < |pattern| ==> text[1..][i - 1 + k] == pattern[k];
      ContainsAt(text[1..], pattern, i - 1);
    }
  }

  lemma {:induction false} PlaceOf(text: string, pattern: string) returns (i: nat)
    requires Contains(text, pattern)
    ensures OccursAt(text, pattern, i)
  {
    if pattern <= text {
      i := 0;
    } else {
      i := PlaceOf(text[1..], pattern);
      assert forall k :: 0 <= k < |pattern| ==> text[i + 1 + k] == pattern[k];
      i := i + 1;
    }
  }

  /** A line contains a pattern if and only if the pattern occurs at some place of it. */
  lemma ContainsMeansOccurs(line: string, pattern: string)
    ensures Contains(line, pattern) <==> exists i: nat :: OccursAt(line, pattern, i)
  {
    if Contains(line, pattern) { var i := PlaceOf(line, pattern); }
    forall i: nat | OccursAt(line, pattern, i) ensures Contains(line, pattern) { ContainsAt(line, pattern, i); }
  }

  // ---------- the texts of the markers ----------

  lemma SentryBlockStartText()
    ensures MarkerText(Start(SentryBlock)) == "__SENTRY_BLOCK_START__"
  {
    assert "__" + "SENTRY_BLOCK" == "__SENTRY_BLOCK";
  }

  lemma SentryBlockStopText()
    ensures MarkerText(Stop(SentryBlock)) == "__SENTRY_BLOCK_END__"
  {
    assert "__" + "SENTRY_BLOCK" == "__SENTRY_BLOCK";
  }

  lemma SentryProxyStartText()
    ensures MarkerText(Start(SentryProxy)) == "__SENTRY_PROXY_START__"
  {
    assert "__" + "SENTRY_PROXY" == "__SENTRY_PROXY";
  }

  lemma SentryProxyStopText()
    ensures MarkerText(Stop(SentryProxy)) == "__SENTRY_PROXY_END__"
  {
    assert "__" + "SENTRY_PROXY" == "__SENTRY_PROXY";
  }

  lemma NofeeBlockStartText()
    ensures MarkerText(Start(NofeeBlock)) == "__NOFEEBOOKING_BLOCK_START__"
  {
    assert "__" + "NOFEEBOOKING_BLOCK" == "__NOFEEBOOKING_BLOCK";
  }

  lemma NofeeBlockStopText()
    ensures MarkerText(Stop(NofeeBlock)) == "__NOFEEBOOKING_BLOCK_END__"
  {
    assert "__" + "NOFEEBOOKING_BLOCK" == "__NOFEEBOOKING_BLOCK";
  }

  lemma NofeeStaticStartText()
    ensures MarkerText(Start(NofeeStatic)) == "__NOFEEBOOKING_STATIC_START__"
  {
    assert "__" + "NOFEEBOOKING_STATIC" == "__NOFEEBOOKING_STATIC";
  }

  lemma NofeeStaticStopText()
    ensures MarkerText(Stop(NofeeStatic)) == "__NOFEEBOOKING_STATIC_END__"
  {
    assert "__" + "NOFEEBOOKING_STATIC" == "__NOFEEBOOKING_STATIC";
  }

  lemma NofeeProxyStartText()
    ensures MarkerText(Start(NofeeProxy)) == "__NOFEEBOOKING_PROXY_START__"
  {
    assert "__" + "NOFEEBOOKING_PROXY" == "__NOFEEBOOKING_PROXY";
  }

  lemma NofeeProxyStopText()
    ensures MarkerText(Stop(NofeeProxy)) == "__NOFEEBOOKING_PROXY_END__"
  {
    assert "__" + "NOFEEBOOKING_PROXY" == "__NOFEEBOOKING_PROXY";
  }

  lemma StorjBlockStartText()
    ensures MarkerText(Start(StorjBlock)) == "__STORJ_BLOCK_START__"
  {
    assert "__" + "STORJ_BLOCK" == "__STORJ_BLOCK";
  }

  lemma StorjBlockStopText()
    ensures MarkerText(Stop(StorjBlock)) == "__STORJ_BLOCK_END__"
  {
    assert "__" + "STORJ_BLOCK" == "__STORJ_BLOCK";
  }

  lemma StorjProxyStartText()
    ensures MarkerText(Start(StorjProxy)) == "__STORJ_PROXY_START__"
  {
    assert "__" + "STORJ_PROXY" == "__STORJ_PROXY";
  }

  lemma StorjProxyStopText()
    ensures MarkerText(Stop(StorjProxy)) == "__STORJ_PROXY_END__"
  {
    assert "__" + "STORJ_PROXY" == "__STORJ_PROXY";
  }

  lemma MarkerTexts(i: nat)
    requires i < 14
    ensures |MARKERS| == 14 && MarkerText(MARKERS[i]) == Pattern(i)
  {
    hide MarkerText;
    match i
    case 0 => SentryBlockStartText();
    case 1 => SentryBlockStopText();
    case 2 => SentryProxyStartText();
    case 3 => SentryProxyStopText();
    case 4 => NofeeBlockStartText();
    case 5 => NofeeBlockStopText();
    case 6 => NofeeStaticStartText();
    case 7 => NofeeStaticStopText();
    case 8 => NofeeProxyStartText();
    case 9 => NofeeProxyStopText();
    case 10 => StorjBlockStartText();
    case 11 => StorjBlockStopText();
    case 12 => StorjProxyStartText();
    case _ => StorjProxyStopText();
  }

  function MarkerName(m: Marker): string {
    match m
    case Start(k) => KindText(k) + "_" + "START"
    case Stop(k) => KindText(k) + "_" + "END"
  }

  lemma MarkerIsPlaceholder(m: Marker)
    ensures MarkerText(m) == Placeholder(MarkerName(m))
  {
  }

  lemma NamesJoin(a: string, b: string)
    requires IsName(a) && IsName(b)
    ensures IsName(a + "_" + b)
  {
    var text := a + "_" + b;
    forall i | 0 <= i < |text| && text[i] == '_' ensures 0 < i < |text| - 1 && text[i + 1] != '_' {
      if i < |a| { assert a[i] == '_'; }
      else if i > |a| { assert b[i - |a| - 1] == '_'; }
      else { assert b[0] != '_'; }
    }
    forall i | 0 <= i < |text| ensures NameChar(text[i]) {
      if i < |a| { assert text[i] == a[i]; } else if i > |a| { assert text[i] == b[i - |a| - 1]; }
    }
  }

  lemma WordsAreNames()
    ensures IsName("SENTRY") && IsName("STORJ") && IsName("BLOCK") && IsName("PROXY")
  {
  }

  lemma LongWordsAreNames()
    ensures IsName("NOFEEBOOKING") && IsName("STATIC") && IsName("START") && IsName("END")
  {
  }

  lemma KindIsName(k: Kind)
    ensures IsName(KindText(k))
  {
    var service := match ServiceOf(k) case Sentry => "SENTRY" case Storj => "STORJ" case Nofeebooking => "NOFEEBOOKING";
    var form := if k.NofeeStatic? then "STATIC"
                else if k.SentryProxy? || k.StorjProxy? || k.NofeeProxy? then "PROXY" else "BLOCK";
    WordsAreNames();
    LongWordsAreNames();
    hide IsName;
    NamesJoin(service, form);
    assert KindText(k) == service + "_" + form;
  }

  lemma MarkerNameIsName(m: Marker)
    ensures IsName(MarkerName(m)) && MarkerName(m)[|MarkerName(m)| - 1] in ['T', 'D']
  {
    KindIsName(m.kind);
    LongWordsAreNames();
    hide IsName;
    NamesJoin(KindText(m.kind), if m.Start? then "START" else "END");
  }

  lemma {:induction false} NoPrefixNotContained(text: string, pattern: string)
    requires forall i :: 0 <= i <= |text| ==> !(pattern <= text[i..])
    ensures !Contains(text, pattern)
  {
    assert text[0..] == text;
    if text != [] {
      forall i | 0 <= i <= |text[1..]| ensures !(pattern <= text[1..][i..]) {
        assert text[1..][i..] == text[i + 1..];
      }
      NoPrefixNotContained(text[1..], pattern);
    }
  }

  lemma {:induction false} HoleIsNoMarker(name: string, markers: seq<Marker>)
    requires IsName(name) && name[|name| - 1] !in ['T', 'D']
    ensures FirstMatch(Placeholder(name), markers).None?
  {
    if markers != [] {
      var text, other := Placeholder(name), MarkerName(markers[0]);
      MarkerIsPlaceholder(markers[0]);
      MarkerNameIsName(markers[0]);
      assert text + "" == text;
      forall i | 0 <= i <= |text| ensures !(MarkerText(markers[0]) <= text[i..]) {
        if i < |text| { NoMatchInHole(name, other, "", i); }
      }
      NoPrefixNotContained(text, MarkerText(markers[0]));
      HoleIsNoMarker(name, markers[1..]);
    }
  }

  lemma {:induction false} FirstMatchIsFirst(line: string, markers: seq<Marker>) returns (i: nat)
    ensures i <= |markers| && forall j :: 0 <= j < i ==> !Contains(line, MarkerText(markers[j]))
    ensures match FirstMatch(line, markers)
            case None => i == |markers|
            case Some(m) => i < |markers| && m == markers[i] && Contains(line, MarkerText(m))
  {
    hide Contains, MarkerText;
    if markers == [] || Contains(line, MarkerText(markers[0])) {
      i := 0;
    } else {
      var k := FirstMatchIsFirst(line, markers[1..]);
      i := k + 1;
      forall j | 0 <= j < i ensures !Contains(line, MarkerText(markers[j])) {
        if j > 0 { assert markers[j] == markers[1..][j - 1]; }
      }
    }
  }

  /**
    A line triggers the action of the first of the fourteen patterns that it contains, and
    none if it contains none.
   */
  lemma FirstPatternDecides(line: string) returns (i: nat)
    ensures i <= 14 && forall j :: 0 <= j < i ==> !Contains(line, Pattern(j))
    ensures match MarkerOf(line)
            case None => i == 14
            case Some(m) => i < 14 && m == MARKERS[i] && Contains(line, Pattern(i))
  {
    hide Contains, MarkerText, FirstMatch;
    i := FirstMatchIsFirst(line, MARKERS);
    forall j | 0 <= j < 14 ensures MarkerText(MARKERS[j]) == Pattern(j) { MarkerTexts(j); }
  }

  /** Markers are exactly the lines with a pattern; a single pattern decides alone. */
  lemma MarkersArePatterns(line: string, k: nat)
    requires k < 14
    ensures MarkerOf(line).Some? <==> exists j :: 0 <= j < 14 && Contains(line, Pattern(j))
    ensures (forall j :: 0 <= j < 14 ==> (Contains(line, Pattern(j)) <==> j == k)) ==>
              MarkerOf(line) == Some(MARKERS[k])
  {
    hide Contains, MarkerOf, Pattern;
    var i := FirstPatternDecides(line);
    assert i < 14 ==> Contains(line, Pattern(i));
    assert i > k ==> !Contains(line, Pattern(k));
  }

  lemma KindsDiffer(k: Kind, l: Kind)
    requires |KindText(k)| == |KindText(l)| && forall i :: 0 <= i < |KindText(k)| ==> KindText(k)[i] == KindText(l)[i]
    ensures k == l
  {
    assert KindText(SentryBlock)[7] == KindText(NofeeBlock)[13] == KindText(StorjBlock)[6] == 'B';
    assert KindText(SentryProxy)[7] == KindText(NofeeProxy)[13] == KindText(StorjProxy)[6] == 'P';
    assert |KindText(NofeeStatic)| == 19 && |KindText(SentryBlock)| == |KindText(SentryProxy)| == 12;
    assert |KindText(NofeeBlock)| == |KindText(NofeeProxy)| == 18;
    assert |KindText(StorjBlock)| == |KindText(StorjProxy)| == 11;
  }

  lemma MarkerNamesDiffer(m: Marker, n: Marker)
    requires MarkerName(m) == MarkerName(n)
    ensures m == n
  {
    hide KindText;
    var a, b := KindText(m.kind), KindText(n.kind);
    MarkerNameIsName(m);
    MarkerNameIsName(n);
    assert MarkerName(m)[|MarkerName(m)| - 1] == if m.Start? then 'T' else 'D';
    assert MarkerName(n)[|MarkerName(n)| - 1] == if n.Start? then 'T' else 'D';
    assert |a| == |b|;
    assert forall i :: 0 <= i < |a| ==> MarkerName(m)[i] == a[i] && MarkerName(n)[i] == b[i];
    KindsDiffer(m.kind, n.kind);
  }

  lemma OtherMarkerNotContained(m: Marker, n: Marker)
    requires m != n
    ensures !Contains(MarkerText(m), MarkerText(n))
  {
    var text := Placeholder(MarkerName(m));
    MarkerIsPlaceholder(m);
    MarkerIsPlaceholder(n);
    MarkerNameIsName(m);
    MarkerNameIsName(n);
    if MarkerName(m) == MarkerName(n) { MarkerNamesDiffer(m, n); }
    hide MarkerName, MarkerText, Contains;
    assert text + "" == text;
    forall i | 0 <= i <= |text| ensures !(MarkerText(n) <= text[i..]) {
      if i < |text| { NoMatchInHole(MarkerName(m), MarkerName(n), "", i); }
    }
    NoPrefixNotContained(text, MarkerText(n));
  }

  /** Each of the fourteen texts, as a line, is its own marker. */
  lemma PatternIsItsMarker(k: nat)
    requires k < 14
    ensures MarkerOf(Pattern(k)) == Some(MARKERS[k])
  {
    MarkerTexts(k);
    forall j | 0 <= j < 14 ensures Contains(Pattern(k), Pattern(j)) <==> j == k {
      MarkerTexts(j);
      if j == k {
        assert Pattern(k) <= Pattern(k);
      } else {
        MarkersAreDistinct(j, k);
        OtherMarkerNotContained(MARKERS[k], MARKERS[j]);
      }
    }
    hide Contains, MarkerOf;
    MarkersArePatterns(Pattern(k), k);
  }

  lemma MarkersAreDistinct(j: nat, k: nat)
    requires j < 14 && k < 14 && j != k
    ensures |MARKERS| == 14 && MARKERS[j] != MARKERS[k]
  {
  }

  lemma {:induction false} QuietHasNoMarker(text: string, k: nat, pattern: string)
    requires Quiet(text) && k <= |text| && |pattern| >= 2 && pattern[0] == '_' && pattern[1] == '_'
    ensures !Contains(text[k..], pattern)
    decreases |text| - k
  {
    if k < |text| {
      assert text[k..][1..] == text[k + 1..];
      QuietHasNoMarker(text, k + 1, pattern);
      Mismatch(pattern, text[k..], if text[k] == '_' then 1 else 0);
    }
  }

  lemma {:induction false} QuietIsNoMarker(text: string, markers: seq<Marker>)
    requires Quiet(text)
    ensures FirstMatch(text, markers).None?
  {
    if markers != [] {
      assert text[0..] == text;
      QuietHasNoMarker(text, 0, MarkerText(markers[0]));
      QuietIsNoMarker(text, markers[1..]);
    }
  }

  // ---------- one section ----------

  function PlaceInProgram(m: Marker): (i: nat)
    ensures i < |MARKERS| == 14 && MARKERS[i] == m
  {
    2 * (match m.kind
         case SentryBlock => 0 case SentryProxy => 1 case NofeeBlock => 2 case NofeeStatic => 3
         case NofeeProxy => 4 case StorjBlock => 5 case StorjProxy => 6)
    + (if m.Start? then 0 else 1)
  }

  lemma MarkerIsItself(m: Marker)
    ensures MarkerOf(MarkerText(m)) == Some(m)
  {
    hide MarkerOf, MarkerText;
    MarkerTexts(PlaceInProgram(m));
    PatternIsItsMarker(PlaceInProgram(m));
  }

  /** A section of one line between its own markers: dropped if the settings skip its kind,
      else the line with its holes filled. */
  lemma SectionOfOneLine(k: Kind, line: string, s: Settings, bindings: seq<Binding>)
    requires MarkerOf(line).None?
    ensures Output(false, [MarkerText(Start(k)), line, MarkerText(Stop(k))], s, bindings)
         == if Skipped(k, s) then [] else [Chain(line, bindings)]
  {
    hide MarkerOf, Chain, MarkerText, Skipped;
    MarkerIsItself(Start(k));
    MarkerIsItself(Stop(k));
    var piece := Section(MarkerText(Start(k)), k, [line], MarkerText(Stop(k)));
    OutputOfPiece(piece, s, bindings);
    assert PieceLines(piece) == [MarkerText(Start(k)), line, MarkerText(Stop(k))];
  }

  lemma PlainX()
    ensures MarkerOf("x").None?
  {
    QuietIsNoMarker("x", MARKERS);
  }

  /** The Storj block of the template, with one line: there only for "true". */
  lemma StorjBlockIsKeptOrDropped(s: Settings)
    ensures Output(false, ["__STORJ_BLOCK_START__", "x", "__STORJ_BLOCK_END__"], s, [])
         == if s.storj == "true" then ["x"] else []
  {
    hide MarkerOf, MarkerText, Output;
    StorjBlockStartText();
    StorjBlockStopText();
    PlainX();
    SectionOfOneLine(StorjBlock, "x", s, []);
  }
}
