/** What one flag of the renderer can change in the Caddyfile, its bindings included
    (scripts/deploy/render-infra-caddyfile.sh). */
module CaddySettings {
  import opened Substitution
  import opened Sections
  import opened CaddyRuntime
  import opened CaddyText
  import opened Markers

  datatype Flag = SentryFlag | NofeebookingFlag | TlsSourceFlag | StorjFlag

  function ServiceOfFlag(flag: Flag): Service {
    match flag
    case SentryFlag => Sentry
    case NofeebookingFlag | TlsSourceFlag => Nofeebooking
    case StorjFlag => Storj
  }

  /** Two environments that may differ in this flag and in nothing else. */
  predicate DifferOnlyIn(flag: Flag, e: Environment, f: Environment) {
    match flag
    case SentryFlag => e.(sentry := f.sentry) == f
    case NofeebookingFlag => e.(nofeebooking := f.nofeebooking) == f
    case TlsSourceFlag => e.(tlsSource := f.tlsSource) == f
    case StorjFlag => e.(storj := f.storj) == f
  }

  function TextsFor(pieces: seq<Piece>, e: Environment): (texts: seq<seq<string>>)
    ensures |texts| == |pieces|
  {
    Texts(pieces, SettingsOf(e), BindingsOf(e))
  }

  /** Outside the sections of the service, the pieces have the same texts. */
  ghost predicate AgreeOutside(service: Service, pieces: seq<Piece>, e: Environment, f: Environment) {
    forall i :: 0 <= i < |pieces| && !BelongsTo(pieces[i], service) ==>
      TextsFor(pieces, e)[i] == TextsFor(pieces, f)[i]
  }

  /** Both environments pin the same nofeebooking certificates to files. */
  predicate SamePins(e: Environment, f: Environment) {
    NofeeWanted(e) == NofeeWanted(f) && WwwWanted(e) == WwwWanted(f)
  }

  lemma SameSkip(k: Kind, flag: Flag, e: Environment, f: Environment)
    requires DifferOnlyIn(flag, e, f) && ServiceOf(k) != ServiceOfFlag(flag)
    ensures Skipped(k, SettingsOf(e)) == Skipped(k, SettingsOf(f))
  {
  }

  lemma SameBindings(flag: Flag, e: Environment, f: Environment)
    requires DifferOnlyIn(flag, e, f) && SamePins(e, f)
    ensures BindingsOf(e) == BindingsOf(f)
  {
  }

  lemma SamePinsAgree(flag: Flag, pieces: seq<Piece>, e: Environment, f: Environment)
    requires DifferOnlyIn(flag, e, f) && SamePins(e, f)
    ensures AgreeOutside(ServiceOfFlag(flag), pieces, e, f)
  {
    SameBindings(flag, e, f);
    forall i | 0 <= i < |pieces| && !BelongsTo(pieces[i], ServiceOfFlag(flag))
      ensures TextsFor(pieces, e)[i] == TextsFor(pieces, f)[i]
    {
      if pieces[i].Section? { SameSkip(pieces[i].kind, flag, e, f); }
    }
  }

  // ---------- a directive hole on a line of its own ----------

  lemma DirectiveHoleIsNoMarker(pair: string)
    requires pair == NOFEE || pair == WWW
    ensures MarkerOf(Placeholder(DirectiveName(pair))).None?
  {
    NofeeTlsName();
    WwwTlsName();
    HoleIsNoMarker(DirectiveName(pair), MARKERS);
  }

  /** A template of one plain line. */
  lemma OnePlainLine(line: string, e: Environment)
    requires MarkerOf(line).None?
    ensures AllFlat([Plain(line)]) && Lines([Plain(line)]) == [line]
    ensures TextsFor([Plain(line)], e) == [[Chain(line, BindingsOf(e))]]
    ensures Output(false, [line], SettingsOf(e), BindingsOf(e)) == [Chain(line, BindingsOf(e))]
  {
    hide MarkerOf, Chain, BindingsOf, SettingsOf;
    OutputOfLine(false, line, SettingsOf(e), BindingsOf(e));
    assert [Plain(line)][..0] == [];
  }

  /** What becomes of a directive hole on a plain line. */
  lemma PinLine(pair: string, e: Environment)
    requires pair == NOFEE || pair == WWW
    ensures var pieces := [Plain(Placeholder(DirectiveName(pair)))];
            && AllFlat(pieces)
            && TextsFor(pieces, e) == [[DirectiveFor(pair, WantedPair(pair, e))]]
            && Output(false, Lines(pieces), SettingsOf(e), BindingsOf(e)) == [DirectiveFor(pair, WantedPair(pair, e))]
  {
    hide MarkerOf, Chain, BindingsOf, SettingsOf, Output, TextsFor, Lines, AllFlat, Placeholder, DirectiveName;
    DirectiveHoleIsNoMarker(pair);
    DirectiveLineText(pair, e);
    OnePlainLine(Placeholder(DirectiveName(pair)), e);
  }

  /** If a pair is pinned in one environment only, the line of its hole tells. */
  lemma DifferentPinsDiffer(pair: string, service: Service, e: Environment, f: Environment)
    requires pair == NOFEE || pair == WWW
    requires WantedPair(pair, e) != WantedPair(pair, f)
    ensures var pieces := [Plain(Placeholder(DirectiveName(pair)))];
            AllFlat(pieces) && !AgreeOutside(service, pieces, e, f)
  {
    hide MarkerOf, TextsFor;
    PinLine(pair, e);
    PinLine(pair, f);
    assert Directive(pair) != "";
    assert !BelongsTo([Plain(Placeholder(DirectiveName(pair)))][0], service);
  }

  /**
    Environments that differ in one flag only give the same text outside the sections of
    the flag's service, in every flat template, if and only if they pin the same
    certificates. So it is always for the three flags that enable a service; the flag of
    the TLS source decides about the pins as well.
   */
  lemma SettingsDoNotInterfere(flag: Flag, e: Environment, f: Environment)
    requires DifferOnlyIn(flag, e, f)
    ensures (forall pieces :: AllFlat(pieces) ==> AgreeOutside(ServiceOfFlag(flag), pieces, e, f)) <==> SamePins(e, f)
    ensures !flag.TlsSourceFlag? ==>
              forall pieces :: AllFlat(pieces) ==> AgreeOutside(ServiceOfFlag(flag), pieces, e, f)
  {
    if SamePins(e, f) {
      forall pieces | AllFlat(pieces) ensures AgreeOutside(ServiceOfFlag(flag), pieces, e, f) {
        SamePinsAgree(flag, pieces, e, f);
      }
    } else {
      DifferentPinsDiffer(if NofeeWanted(e) != NofeeWanted(f) then NOFEE else WWW, ServiceOfFlag(flag), e, f);
    }
  }

  /** The texts that `SettingsDoNotInterfere` compares are what the script prints. */
  lemma RenderedIsTexts(pieces: seq<Piece>, e: Environment)
    requires AllFlat(pieces)
    ensures Output(false, Lines(pieces), SettingsOf(e), BindingsOf(e)) == Flatten(TextsFor(pieces, e))
  {
    OutputIsTexts(pieces, SettingsOf(e), BindingsOf(e));
  }

  /** Failing inputs, outside every section: wherever the nofeebooking certificate is pinned,
      a plain line becomes its directive, and an empty line once the host is made the TLS
      source. */
  lemma TlsSourceInterferes(e: Environment)
    requires NofeeWanted(e)
    ensures var f := e.(tlsSource := "true");
            var pieces := [Plain(Placeholder(DirectiveName(NOFEE)))];
            && DifferOnlyIn(TlsSourceFlag, e, f) && AllFlat(pieces)
            && Output(false, Lines(pieces), SettingsOf(e), BindingsOf(e)) == [Directive(NOFEE)]
            && Output(false, Lines(pieces), SettingsOf(f), BindingsOf(f)) == [""]
  {
    hide Output, MarkerOf, BindingsOf, SettingsOf, Lines, AllFlat, TextsFor, Placeholder;
    PinLine(NOFEE, e);
    PinLine(NOFEE, e.(tlsSource := "true"));
  }

  /** One such input, and how the two Caddyfiles differ. */
  lemma SomeHostIsPinned() returns (e: Environment)
    ensures e == Environment("", "", "QQ==", "QQ==", "", "", "false", "", "true", "", "", "", "", "", "")
    ensures var f := e.(tlsSource := "true");
            var lines := Lines([Plain(Placeholder(DirectiveName(NOFEE)))]);
            Output(false, lines, SettingsOf(e), BindingsOf(e)) != Output(false, lines, SettingsOf(f), BindingsOf(f))
  {
    hide Output, MarkerOf, BindingsOf, SettingsOf, Lines, Placeholder;
    e := Environment("", "", "QQ==", "QQ==", "", "", "false", "", "true", "", "", "", "", "", "");
    TlsSourceInterferes(e);
    assert Directive(NOFEE) != "";
  }
}
