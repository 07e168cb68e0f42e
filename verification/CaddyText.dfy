/** The text of the rendered Caddyfile: every hole filled at once, no placeholder left. */
module CaddyText {
  import opened Substitution
  import opened Sections
  import opened CaddyRuntime
  import opened Markers

  /** Addresses without anything that a replacement would interpret. */
  ghost predicate PlainAddresses(e: Environment) {
    PlainValue(e.sentryIp) && PlainValue(e.nofeeIp) && PlainValue(e.backend2) && PlainValue(e.backend3)
    && PlainValue(e.storjIp)
  }

  lemma ShortNames()
    ensures IsName("TLS_DIRECTIVE") && IsName("SENTRY_SERVER_IP") && IsName("STORJ_SERVER_IP")
  {
  }

  lemma NofeeTlsName()
    ensures IsName("NOFEEBOOKING_TLS_DIRECTIVE")
  {
  }

  lemma WwwTlsName()
    ensures IsName("NOFEEBOOKING_WWW_TLS_DIRECTIVE")
  {
  }

  lemma NofeeIpName()
    ensures IsName("NOFEEBOOKING_SERVER_IP")
  {
  }

  lemma Backend2Name()
    ensures IsName("NOFEEBOOKING_BACKEND_2")
  {
  }

  lemma Backend3Name()
    ensures IsName("NOFEEBOOKING_BACKEND_3")
  {
  }

  lemma PlainConcat(a: string, b: string)
    requires PlainValue(a) && PlainValue(b)
    ensures PlainValue(a + b)
  {
    QuietConcat(a, b);
  }

  lemma DirectiveIsPlain(pair: string)
    requires PlainValue(pair)
    ensures PlainValue(Directive(pair))
  {
    PathsArePlain();
    hide PlainValue;
    PlainConcat(pair, ".crt");
    PlainConcat(pair, ".key");
    PlainConcat(TLS_PATH, Key(pair));
    PlainConcat(" ", TLS_PATH + Key(pair));
    PlainConcat(Crt(pair), " " + (TLS_PATH + Key(pair)));
    PlainConcat(TLS_PATH, Crt(pair) + (" " + (TLS_PATH + Key(pair))));
    PlainConcat("    tls ", TLS_PATH + (Crt(pair) + (" " + (TLS_PATH + Key(pair)))));
  }

  lemma PathsArePlain()
    ensures PlainValue("    tls ") && PlainValue(TLS_PATH) && PlainValue(" ")
    ensures PlainValue(".crt") && PlainValue(".key")
  {
  }

  lemma PairsArePlain()
    ensures PlainValue(TLS) && PlainValue(NOFEE) && PlainValue(WWW)
  {
  }

  lemma DefaultsArePlain()
    ensures PlainValue("94.130.13.115") && PlainValue("88.99.151.102") && PlainValue("138.201.129.173")
  {
  }

  lemma NamesAreGood(e: Environment)
    ensures GoodNames(BindingsOf(e))
  {
    ShortNames();
    NofeeTlsName();
    WwwTlsName();
    NofeeIpName();
    Backend2Name();
    Backend3Name();
    var b := BindingsOf(e);
    assert |b[0].name| == 13 && |b[1].name| == 26 && |b[2].name| == 30 && |b[3].name| == 16;
    assert |b[4].name| == |b[5].name| == |b[6].name| == 22 && |b[7].name| == 15;
    assert b[4].name[13] == 'S' && b[5].name[13] == 'B' && b[6].name[13] == 'B';
    assert b[5].name[21] == '2' && b[6].name[21] == '3';
  }

  lemma DirectivesArePlain(e: Environment)
    ensures forall k :: 0 <= k < 3 ==> PlainValue(BindingsOf(e)[k].value)
  {
    PairsArePlain();
    DirectiveIsPlain(TLS);
    DirectiveIsPlain(NOFEE);
    DirectiveIsPlain(WWW);
  }

  lemma BindingsAreGood(e: Environment)
    requires PlainAddresses(e)
    ensures GoodBindings(BindingsOf(e))
  {
    NamesAreGood(e);
    DirectivesArePlain(e);
    DefaultsArePlain();
  }

  /** A template line whose holes all have values here, in text that cannot be mistaken for one. */
  ghost predicate Fillable(line: string, e: Environment) {
    exists l: Line :: Text(l) == line && WellFormed(l) && AllBound(l, ValueMap(BindingsOf(e)).Keys)
  }

  /** The eight passes over a line fill all its holes at once. */
  lemma LineIsFilled(l: Line, e: Environment)
    requires WellFormed(l) && PlainAddresses(e)
    ensures Chain(Text(l), BindingsOf(e)) == FillAll(l, ValueMap(BindingsOf(e)))
  {
    BindingsAreGood(e);
    ChainIsSimultaneous(l, BindingsOf(e));
  }

  /** No double underscore, hence no placeholder and no marker. */
  ghost predicate Clean(line: string) {
    Quiet(line) && MarkerOf(line).None? && !Contains(line, "__")
  }

  ghost predicate AllClean(lines: seq<string>) {
    forall i :: 0 <= i < |lines| ==> Clean(lines[i])
  }

  ghost predicate AllFillable(lines: seq<string>, e: Environment) {
    forall i :: 0 <= i < |lines| ==> MarkerOf(lines[i]).Some? || Fillable(lines[i], e)
  }

  lemma CleanLine(line: string, e: Environment)
    requires PlainAddresses(e) && Fillable(line, e)
    ensures Clean(Chain(line, BindingsOf(e)))
  {
    var l: Line :| Text(l) == line && WellFormed(l) && AllBound(l, ValueMap(BindingsOf(e)).Keys);
    var out := Chain(line, BindingsOf(e));
    BindingsAreGood(e);
    NothingSurvives(l, BindingsOf(e));
    QuietIsNoMarker(out, MARKERS);
    assert out[0..] == out;
    QuietHasNoMarker(out, 0, "__");
  }

  /** In the rendered text of any template with fillable lines, bracketed or not, no
      placeholder and no marker survives. */
  lemma {:induction false} RenderedTextIsClean(lines: seq<string>, s: Settings, e: Environment)
    requires PlainAddresses(e) && AllFillable(lines, e)
    ensures AllClean(Output(false, lines, s, BindingsOf(e)))
  {
    if lines != [] {
      var last := |lines| - 1;
      RenderedTextIsClean(lines[..last], s, e);
      assert MarkerOf(lines[last]).Some? || Fillable(lines[last], e);
      if MarkerOf(lines[last]).None? { CleanLine(lines[last], e); }
    }
  }

  // ---------- directive holes ----------

  function DirectiveName(pair: string): string {
    if pair == TLS then "TLS_DIRECTIVE"
    else if pair == NOFEE then "NOFEEBOOKING_TLS_DIRECTIVE"
    else "NOFEEBOOKING_WWW_TLS_DIRECTIVE"
  }

  predicate IsPair(pair: string) { pair == TLS || pair == NOFEE || pair == WWW }

  predicate WantedPair(pair: string, e: Environment) {
    if pair == TLS then Paired(e.tlsCert, e.tlsKey)
    else if pair == NOFEE then NofeeWanted(e)
    else WwwWanted(e)
  }

  /** A directive hole alone on its line becomes the directive, or an empty line. */
  lemma DirectiveLineText(pair: string, e: Environment)
    requires IsPair(pair)
    ensures Chain(Placeholder(DirectiveName(pair)), BindingsOf(e)) == DirectiveFor(pair, WantedPair(pair, e))
  {
    var k := if pair == TLS then 0 else if pair == NOFEE then 1 else 2;
    NamesAreGood(e);
    DirectivesArePlain(e);
    assert BindingsOf(e)[k] == Binding(DirectiveName(pair), DirectiveFor(pair, WantedPair(pair, e)));
    ChainOfHole(BindingsOf(e), k);
  }
}
