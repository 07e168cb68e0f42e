/** The certificate paths in the Caddyfile and the files they name, over accepted and
    aborted runs (scripts/deploy/render-infra-caddyfile.sh). */
module CaddyPaths {
  import opened Wrappers
  import opened Base64
  import opened Substitution
  import opened Sections
  import opened CaddyRuntime
  import opened CaddyText
  import opened Markers

  function PathOf(name: string): string { TLS_PATH + name }

  /** The line has the path of one of the two files of the pair in it. */
  predicate Mentions(line: string, pair: string) {
    Contains(line, PathOf(Crt(pair))) || Contains(line, PathOf(Key(pair)))
  }

  ghost predicate Named(lines: seq<string>, pair: string) {
    exists i :: 0 <= i < |lines| && Mentions(lines[i], pair)
  }

  predicate BothOnDisk(disk: Disk, pair: string) { Crt(pair) in disk.files && Key(pair) in disk.files }

  /** Every pair of which the Caddyfile names a file is on disk with both its files. */
  ghost predicate Safe(disk: Disk) {
    forall pair | IsPair(pair) ::
      disk.caddyfile.Some? && Named(disk.caddyfile.value, pair) ==> BothOnDisk(disk, pair)
  }

  // ---------- what contains what ----------

  lemma FirstIsThere(text: string, pattern: string)
    requires Contains(text, pattern) && pattern != []
    ensures pattern[0] in text
  {
    var i := PlaceOf(text, pattern);
    assert text[i + 0] == pattern[0];
  }

  lemma MentionHasPath(line: string, pair: string)
    requires Mentions(line, pair)
    ensures Contains(line, TLS_PATH)
  {
    hide Contains;
    var name := if Contains(line, PathOf(Crt(pair))) then Crt(pair) else Key(pair);
    var i := PlaceOf(line, PathOf(name));
    PathThenName(name);
    ContainsAt(line, TLS_PATH, i);
  }

  lemma PathThenName(name: string)
    ensures |PathOf(name)| == |TLS_PATH| + |name|
    ensures forall k :: 0 <= k < |TLS_PATH| ==> PathOf(name)[k] == TLS_PATH[k]
    ensures forall k :: 0 <= k < |name| ==> PathOf(name)[|TLS_PATH| + k] == name[k]
  {
  }

  // ---------- lines without a certificate path ----------

  /** An address that can be no part of the path: it has no slash and does not occur in it. */
  predicate NoPartOfPath(value: string) { '/' !in value && !Contains(TLS_PATH, value) }

  lemma PathCharacters()
    ensures |TLS_PATH| == 15 && TLS_PATH[0] == '/' && TLS_PATH[1] == 'e' && TLS_PATH[4] == '/' && TLS_PATH[14] == '/'
    ensures forall i :: 0 < i < 14 && TLS_PATH[i] == '/' ==> TLS_PATH[i + 1] != 'e'
    ensures forall i :: 0 <= i < 15 ==> TLS_PATH[i] == '/' || 'a' <= TLS_PATH[i] <= 'z'
  {
    assert TLS_PATH == ['/', 'e', 't', 'c', '/', 'c', 'a', 'd', 'd', 'y', '/', 't', 'l', 's', '/'];
  }

  /** A path between slashes is not built up from a value and the text around it, if the
      value has no slash and is no part of the path. */
  lemma NotBuiltUp(before: string, value: string, rest: string, path: string)
    requires path != [] && path[0] == '/' && path[|path| - 1] == '/'
    requires '/' !in value && !Contains(path, value) && !Contains(before, path) && !Contains(rest, path)
    ensures !Contains(before + (value + rest), path)
  {
    hide Contains;
    if Contains(before + (value + rest), path) {
      var i := PlaceOf(before + (value + rest), path);
      NoPlace(before, value, rest, path, i);
    }
  }

  lemma InTheMiddle(before: string, value: string, rest: string, k: nat)
    requires |before| <= k < |before| + |value|
    ensures (before + (value + rest))[k] in value
  {
    assert (before + (value + rest))[k] == value[k - |before|];
  }

  lemma NoPlace(before: string, value: string, rest: string, path: string, i: nat)
    requires path != [] && path[0] == '/' && path[|path| - 1] == '/'
    requires '/' !in value && !Contains(path, value) && !Contains(before, path) && !Contains(rest, path)
    ensures !OccursAt(before + (value + rest), path, i)
  {
    hide Contains;
    var text := before + (value + rest);
    var n, a, v := |path|, |before|, |before| + |value|;
    if OccursAt(text, path, i) {
      var last: nat := i + n - 1;
      assert text[i + 0] == path[0] && text[i + (n - 1)] == path[n - 1];
      if i + n <= a {
        assert forall k :: 0 <= k < n ==> before[i + k] == path[k];
        ContainsAt(before, path, i);
      } else if i >= v {
        assert forall k :: 0 <= k < n ==> rest[i - v + k] == path[k];
        ContainsAt(rest, path, i - v);
      } else if i >= a {
        InTheMiddle(before, value, rest, i);
      } else if i + n <= v {
        InTheMiddle(before, value, rest, last);
      } else {
        assert forall k :: 0 <= k < |value| ==> path[a - i + k] == text[i + (a - i + k)] == value[k];
        ContainsAt(path, value, a - i);
      }
    }
  }

  const ADDRESS_NAMES := {"SENTRY_SERVER_IP", "NOFEEBOOKING_SERVER_IP", "NOFEEBOOKING_BACKEND_2",
                          "NOFEEBOOKING_BACKEND_3", "STORJ_SERVER_IP"}

  /** The literal text of a line has no certificate path in it. */
  predicate PathFree(line: Line) {
    match line
    case End(text) => !Contains(text, TLS_PATH)
    case Hole(before, _, after) => !Contains(before, TLS_PATH) && PathFree(after)
  }

  lemma {:induction false} FilledIsPathFree(line: Line, values: map<string, string>)
    requires PathFree(line) && AllBound(line, values.Keys) && AllBound(line, ADDRESS_NAMES)
    requires forall name | name in ADDRESS_NAMES && name in values :: NoPartOfPath(values[name])
    ensures !Contains(FillAll(line, values), TLS_PATH)
  {
    hide Contains;
    if line.Hole? {
      FilledIsPathFree(line.after, values);
      PathCharacters();
      NotBuiltUp(line.before, values[line.name], FillAll(line.after, values), TLS_PATH);
    }
  }

  // ---------- directives ----------

  /** The places of the parts of a text in which one part comes twice. */
  lemma PlacesOfParts(a: string, path: string, first: string, b: string, second: string)
    ensures var text, n := a + (path + (first + (b + (path + second)))), |a| + |path|;
            && |text| == n + |first| + |b| + |path| + |second|
            && (forall k :: 0 <= k < |a| ==> text[k] == a[k])
            && (forall k :: 0 <= k < |b| ==> text[n + |first| + k] == b[k])
            && OccursAt(text, path, |a|) && OccursAt(text, first, n)
            && OccursAt(text, path, n + |first| + |b|) && OccursAt(text, second, n + |first| + |b| + |path|)
  {
  }

  /** In a directive the path comes at two places, each time followed by a file's name. */
  lemma DirectiveCharacters(pair: string)
    ensures var text, n := Directive(pair), |pair|;
            && |text| == 2 * n + 47
            && (forall k :: 0 <= k < 8 ==> text[k] != '/') && text[n + 27] == ' '
            && OccursAt(text, TLS_PATH, 8) && OccursAt(text, Crt(pair), 23)
            && OccursAt(text, TLS_PATH, n + 28) && OccursAt(text, Key(pair), n + 43)
  {
    hide OccursAt;
    PathCharacters();
    PlacesOfParts("    tls ", TLS_PATH, Crt(pair), " ", Key(pair));
    assert forall k :: 0 <= k < 8 ==> Directive(pair)[k] == "    tls "[k];
    assert Directive(pair)[23 + |Crt(pair)| + 0] == " "[0];
  }

  lemma DirectiveMentions(pair: string)
    ensures Mentions(Directive(pair), pair)
  {
    hide Contains, Directive, OccursAt;
    DirectiveCharacters(pair);
    OccurTogether(Directive(pair), TLS_PATH, Crt(pair), 8);
    ContainsAt(Directive(pair), PathOf(Crt(pair)), 8);
  }

  lemma OccurTogether(text: string, a: string, b: string, i: nat)
    requires OccursAt(text, a, i) && OccursAt(text, b, i + |a|)
    ensures OccursAt(text, a + b, i)
  {
    forall k | 0 <= k < |a + b| ensures text[i + k] == (a + b)[k] {
      if k >= |a| { assert text[i + |a| + (k - |a|)] == b[k - |a|]; }
    }
  }

  /** Inside a path and a name behind it, no second path begins. */
  lemma NoPathInside(text: string, at: nat, name: string, i: nat)
    requires OccursAt(text, TLS_PATH, at) && OccursAt(text, name, at + 15)
    requires '/' !in name && |name| >= 4 && at < i < at + 15 + |name|
    ensures !OccursAt(text, TLS_PATH, i)
  {
    PathCharacters();
    assert i < at + 14 ==> text[at + (i - at)] == TLS_PATH[i - at] && text[at + (i + 1 - at)] == TLS_PATH[i + 1 - at];
    assert i == at + 14 ==> text[at + 15 + 3] == name[3];
    assert i >= at + 15 ==> text[at + 15 + (i - at - 15)] == name[i - at - 15];
    if OccursAt(text, TLS_PATH, i) { PathOccurs(text, i); }
  }

  lemma PathOccurs(text: string, i: nat)
    requires OccursAt(text, TLS_PATH, i)
    ensures i + 15 <= |text| && text[i] == '/' && text[i + 1] == 'e' && text[i + 4] == '/'
  {
    PathCharacters();
    assert text[i + 0] == TLS_PATH[0];
  }

  /** In a directive the path begins at two places only. */
  lemma PathPlaces(pair: string, i: nat)
    requires '/' !in pair && OccursAt(Directive(pair), TLS_PATH, i)
    ensures i == 8 || i == |pair| + 28
  {
    hide Directive;
    var text := Directive(pair);
    DirectiveCharacters(pair);
    PathCharacters();
    assert text[i + 0] == TLS_PATH[0];
    if 8 < i < 27 + |pair| {
      NoPathInside(text, 8, Crt(pair), i);
    } else if i > 28 + |pair| {
      NoPathInside(text, |pair| + 28, Key(pair), i);
    }
  }

  /** A directive mentions the files of its own pair only. */
  lemma DirectiveMentionsOwn(pair: string, other: string)
    requires IsPair(pair) && IsPair(other) && Mentions(Directive(pair), other)
    ensures other == pair
  {
    hide Contains, Directive;
    var name := if Contains(Directive(pair), PathOf(Crt(other))) then Crt(other) else Key(other);
    PairsHaveNoSlash();
    var i := PlaceOf(Directive(pair), PathOf(name));
    PathThenName(name);
    assert OccursAt(Directive(pair), TLS_PATH, i);
    PathPlaces(pair, i);
    DirectiveCharacters(pair);
    var own := if i == 8 then Crt(pair) else Key(pair);
    hide OccursAt, IsPair, Crt, Key;
    SameCharacters(Directive(pair), name, own, i);
    NamesDifferEarly(pair, other, name, own);
  }

  lemma SameCharacters(text: string, name: string, own: string, i: nat)
    requires OccursAt(text, PathOf(name), i) && OccursAt(text, own, i + 15)
    ensures forall k :: 0 <= k < |name| && k < |own| ==> name[k] == own[k]
  {
    PathThenName(name);
    PathCharacters();
    forall k | 0 <= k < |name| && k < |own| ensures name[k] == own[k] {
      assert PathOf(name)[15 + k] == name[k];
      assert text[i + (15 + k)] == PathOf(name)[15 + k];
      assert text[i + 15 + k] == own[k];
    }
  }

  lemma NamesDifferEarly(pair: string, other: string, name: string, own: string)
    requires IsPair(pair) && IsPair(other)
    requires (name == Crt(other) || name == Key(other)) && (own == Crt(pair) || own == Key(pair))
    requires forall k :: 0 <= k < |name| && k < |own| ==> name[k] == own[k]
    ensures other == pair
  {
    assert Crt(TLS)[0] == Key(TLS)[0] == 't';
    assert Crt(NOFEE)[0] == Key(NOFEE)[0] == Crt(WWW)[0] == Key(WWW)[0] == 'n';
    assert Crt(NOFEE)[12] == Key(NOFEE)[12] == '.' && Crt(WWW)[12] == Key(WWW)[12] == '-';
    assert name[0] == own[0];
  }

  lemma PairsHaveNoSlash()
    ensures '/' !in TLS && '/' !in NOFEE && '/' !in WWW
  {
  }

  // ---------- what an accepted run renders ----------

  predicate GoodAddress(value: string) { value == "" || NoPartOfPath(value) }

  /** Addresses are plain and no part of the path; an unset one has a default that is so. */
  ghost predicate GoodAddresses(e: Environment) {
    && PlainAddresses(e)
    && GoodAddress(e.sentryIp) && GoodAddress(e.nofeeIp) && GoodAddress(e.backend2) && GoodAddress(e.backend3)
    && GoodAddress(e.storjIp)
  }

  /** A hole for a directive, alone on its line. */
  predicate IsDirectiveLine(line: string) {
    exists pair | pair in [TLS, NOFEE, WWW] :: line == Placeholder(DirectiveName(pair))
  }

  /** Any text without a certificate path, with holes for addresses. */
  ghost predicate IsAddressLine(line: string) {
    exists l: Line :: Text(l) == line && WellFormed(l) && AllBound(l, ADDRESS_NAMES) && PathFree(l)
  }

  ghost predicate Tidy(template: seq<string>) {
    forall i :: 0 <= i < |template| ==>
      MarkerOf(template[i]).Some? || IsDirectiveLine(template[i]) || IsAddressLine(template[i])
  }

  lemma NoSlashNoPath(text: string)
    requires '/' !in text
    ensures !Contains(text, TLS_PATH)
  {
    PathCharacters();
    if Contains(text, TLS_PATH) { FirstIsThere(text, TLS_PATH); }
  }

  lemma ProxyLineParts()
    ensures Quiet("    reverse_proxy ") && Quiet(":3004") && IsName("STORJ_SERVER_IP")
    ensures '/' !in "    reverse_proxy " && '/' !in ":3004"
  {
  }

  lemma ProxyLineIsAddressLine()
    ensures IsAddressLine("    reverse_proxy __STORJ_SERVER_IP__:3004")
  {
    hide Contains, Quiet, IsName;
    ProxyLineParts();
    var l := Hole("    reverse_proxy ", "STORJ_SERVER_IP", End(":3004"));
    NoSlashNoPath("    reverse_proxy ");
    NoSlashNoPath(":3004");
    assert Text(l) == "    reverse_proxy __STORJ_SERVER_IP__:3004";
    assert WellFormed(l) && AllBound(l, ADDRESS_NAMES) && PathFree(l);
  }

  lemma HoleIsDirectiveLine()
    ensures IsDirectiveLine("__TLS_DIRECTIVE__")
  {
    assert "__TLS_DIRECTIVE__" == Placeholder(DirectiveName(TLS));
  }

  /** Lines of the repository's template are tidy: a directive and a proxied service. */
  lemma ProxiedSiteIsTidy()
    ensures Tidy(["__TLS_DIRECTIVE__", "    reverse_proxy __STORJ_SERVER_IP__:3004"])
  {
    hide MarkerOf, IsDirectiveLine, IsAddressLine;
    HoleIsDirectiveLine();
    ProxyLineIsAddressLine();
  }

  /** The line mentions wanted pairs only. */
  ghost predicate Sound(line: string, e: Environment) {
    forall pair | IsPair(pair) :: Mentions(line, pair) ==> WantedPair(pair, e)
  }

  ghost predicate AllSound(lines: seq<string>, e: Environment) {
    forall i :: 0 <= i < |lines| ==> Sound(lines[i], e)
  }

  /** Addresses that begin with a digit are no part of the path. */
  lemma DigitsAreNoPath(value: string)
    requires value != "" && '0' <= value[0] <= '9' && '/' !in value
    ensures NoPartOfPath(value)
  {
    hide Contains;
    PathCharacters();
    if Contains(TLS_PATH, value) {
      FirstIsThere(TLS_PATH, value);
    }
  }

  lemma AddressOrDefault(value: string, default: string)
    requires GoodAddress(value) && default != "" && '0' <= default[0] <= '9' && '/' !in default
    ensures NoPartOfPath(OrElse(value, default))
  {
    DigitsAreNoPath(default);
  }

  lemma AddressValues(e: Environment)
    requires GoodAddresses(e)
    ensures forall name | name in ADDRESS_NAMES ::
              name in ValueMap(BindingsOf(e)) && NoPartOfPath(ValueMap(BindingsOf(e))[name])
  {
    hide NoPartOfPath;
    BindingsAreGood(e);
    AddressOrDefault(e.sentryIp, "94.130.13.115");
    AddressOrDefault(e.nofeeIp, "94.130.13.115");
    AddressOrDefault(e.backend2, "88.99.151.102");
    AddressOrDefault(e.backend3, "138.201.129.173");
    AddressOrDefault(e.storjIp, "94.130.13.115");
    hide OrElse, ValueMap, PlainAddresses, GoodBindings;
    ValueOf(BindingsOf(e), 3);
    ValueOf(BindingsOf(e), 4);
    ValueOf(BindingsOf(e), 5);
    ValueOf(BindingsOf(e), 6);
    ValueOf(BindingsOf(e), 7);
  }

  lemma {:induction false} BoundInMore(line: Line, names: set<string>, more: set<string>)
    requires AllBound(line, names) && names <= more
    ensures AllBound(line, more)
  {
    if line.Hole? { BoundInMore(line.after, names, more); }
  }

  lemma AddressLineIsSound(line: string, e: Environment)
    requires GoodAddresses(e) && IsAddressLine(line)
    ensures Sound(Chain(line, BindingsOf(e)), e)
  {
    var l: Line :| Text(l) == line && WellFormed(l) && AllBound(l, ADDRESS_NAMES) && PathFree(l);
    var values := ValueMap(BindingsOf(e));
    LineIsFilled(l, e);
    AddressValues(e);
    BoundInMore(l, ADDRESS_NAMES, values.Keys);
    FilledIsPathFree(l, values);
    forall pair | IsPair(pair) ensures !Mentions(FillAll(l, values), pair) {
      if Mentions(FillAll(l, values), pair) { MentionHasPath(FillAll(l, values), pair); }
    }
  }

  lemma EmptyMentionsNothing(pair: string)
    ensures !Mentions("", pair)
  {
  }

  lemma DirectiveLineIsSound(line: string, e: Environment)
    requires IsDirectiveLine(line)
    ensures Sound(Chain(line, BindingsOf(e)), e)
  {
    hide Contains, Directive, Chain, BindingsOf, Placeholder;
    var pair :| pair in [TLS, NOFEE, WWW] && line == Placeholder(DirectiveName(pair));
    DirectiveLineText(pair, e);
    forall other | IsPair(other) && Mentions(DirectiveFor(pair, WantedPair(pair, e)), other)
      ensures WantedPair(other, e)
    {
      if WantedPair(pair, e) { DirectiveMentionsOwn(pair, other); } else { EmptyMentionsNothing(other); }
    }
  }

  lemma {:induction false} RenderedIsSound(lines: seq<string>, s: Settings, e: Environment)
    requires GoodAddresses(e) && Tidy(lines)
    ensures AllSound(Output(false, lines, s, BindingsOf(e)), e)
  {
    hide MarkerOf, IsDirectiveLine, IsAddressLine, Sound;
    if lines != [] {
      var last := |lines| - 1;
      RenderedIsSound(lines[..last], s, e);
      if MarkerOf(lines[last]).None? {
        if IsDirectiveLine(lines[last]) { DirectiveLineIsSound(lines[last], e); }
        else { AddressLineIsSound(lines[last], e); }
      }
    }
  }

  /** After an accepted run, every certificate path in the Caddyfile names a file that is on
      disk, together with the other file of its pair. */
  lemma AcceptedRunIsSafe(disk: Disk, template: seq<string>, e: Environment, partial: Bytes)
    requires Accepted(Some(template), e) && GoodAddresses(e) && Tidy(template)
    ensures Safe(Run(disk, Some(template), e, partial).0)
  {
    OutcomeOfRun(disk, Some(template), e, partial);
    DirectivesNameExistingFiles(disk, Some(template), e, partial);
    RenderedIsSound(template, SettingsOf(e), e);
  }

  // ---------- what an aborted run leaves ----------

  predicate OnlyWrites(commands: seq<FileCommand>) {
    forall i :: 0 <= i < |commands| ==> commands[i].Write?
  }

  lemma {:induction false} WritesKeepNames(files: map<string, Bytes>, commands: seq<FileCommand>, partial: Bytes)
    requires OnlyWrites(commands)
    ensures files.Keys <= Perform(files, commands, partial).0.Keys
    decreases |commands|
  {
    if commands != [] {
      assert commands[0].Write?;
      if DecodeText(commands[0].text).Some? {
        WritesKeepNames(files[commands[0].name := DecodeText(commands[0].text).value], commands[1..], partial);
      }
    }
  }

  /** A pair that is there is written as far as it decodes, not removed. */
  lemma PairKeepsNames(files: map<string, Bytes>, pair: string, cert: string, key: string, partial: Bytes)
    requires Paired(cert, key)
    ensures files.Keys <= Perform(files, PairCommands(pair, cert, key), partial).0.Keys
  {
    WritesKeepNames(files, PairCommands(pair, cert, key), partial);
  }

  /** An aborted run that has removed no pair before it stopped. */
  predicate RemovesNothing(e: Environment) {
    Paired(e.tlsCert, e.tlsKey) && (!Decodes(e.tlsCert, e.tlsKey) || Paired(e.nofeeCert, e.nofeeKey))
  }

  lemma AbortKeepsNames(files: map<string, Bytes>, e: Environment, partial: Bytes)
    requires !Accepted(Some([]), e) && RemovesNothing(e)
    ensures files.Keys <= Perform(files, Commands(e), partial).0.Keys
  {
    var tls, nofee := PairCommands(TLS, e.tlsCert, e.tlsKey), PairCommands(NOFEE, e.nofeeCert, e.nofeeKey);
    var www := PairCommands(WWW, e.wwwCert, e.wwwKey);
    PerformPair(files, TLS, e.tlsCert, e.tlsKey, partial);
    PerformConcat(files, tls, NofeeCommands(e), partial);
    PairKeepsNames(files, TLS, e.tlsCert, e.tlsKey, partial);
    hide Perform, PairCommands, DecodeText;
    if Decodes(e.tlsCert, e.tlsKey) {
      var middle := Perform(files, tls, partial).0;
      PerformPair(middle, NOFEE, e.nofeeCert, e.nofeeKey, partial);
      PerformConcat(middle, nofee, www, partial);
      PairKeepsNames(middle, NOFEE, e.nofeeCert, e.nofeeKey, partial);
      if Decodes(e.nofeeCert, e.nofeeKey) {
        PairKeepsNames(Perform(middle, nofee, partial).0, WWW, e.wwwCert, e.wwwKey, partial);
      }
    }
  }

  /** The pair whose files an aborted run removes before it stops. */
  function RemovedPair(e: Environment): string { if Paired(e.tlsCert, e.tlsKey) then NOFEE else TLS }

  lemma NofeeIsRemoved(files: map<string, Bytes>, e: Environment, partial: Bytes)
    requires Decodes(e.tlsCert, e.tlsKey) && e.tlsSource != "true" && !Paired(e.nofeeCert, e.nofeeKey)
    ensures Crt(NOFEE) !in Perform(files, Commands(e), partial).0
  {
    var tls, nofee := PairCommands(TLS, e.tlsCert, e.tlsKey), PairCommands(NOFEE, e.nofeeCert, e.nofeeKey);
    var www := PairCommands(WWW, e.wwwCert, e.wwwKey);
    var middle := Perform(files, tls, partial).0;
    var second := Perform(middle, nofee, partial).0;
    PerformPair(files, TLS, e.tlsCert, e.tlsKey, partial);
    PerformConcat(files, tls, NofeeCommands(e), partial);
    PerformPair(middle, NOFEE, e.nofeeCert, e.nofeeKey, partial);
    PerformConcat(middle, nofee, www, partial);
    PerformPair(second, WWW, e.wwwCert, e.wwwKey, partial);
    NamesDiffer();
    var after := Perform(second, www, partial).0;
    assert Crt(NOFEE) in Names(NOFEE) && Crt(NOFEE) !in second;
    assert Crt(NOFEE) in after ==> Crt(NOFEE) in after - Names(WWW);
  }

  lemma AbortRemoves(files: map<string, Bytes>, e: Environment, partial: Bytes)
    requires !Accepted(Some([]), e) && !IsHalfPair(e) && !RemovesNothing(e)
    ensures Crt(RemovedPair(e)) !in Perform(files, Commands(e), partial).0
  {
    if Paired(e.tlsCert, e.tlsKey) {
      NofeeIsRemoved(files, e, partial);
    } else {
      var tls := PairCommands(TLS, e.tlsCert, e.tlsKey);
      PerformPair(files, TLS, e.tlsCert, e.tlsKey, partial);
      PerformConcat(files, tls, NofeeCommands(e), partial);
      assert Crt(TLS) in Names(TLS) && Crt(TLS) !in Perform(files, tls, partial).0;
      MainPairIsKept(Perform(files, tls, partial).0, e, partial);
    }
  }

  /** A safe disk with a Caddyfile that names one pair. */
  function DiskNaming(pair: string): Disk {
    Disk(map name | name in Managed() :: [], Some([Directive(pair)]))
  }

  lemma DiskNamingIsSafe(pair: string)
    requires IsPair(pair)
    ensures Safe(DiskNaming(pair)) && Named(DiskNaming(pair).caddyfile.value, pair)
  {
    DirectiveMentions(pair);
    assert Mentions(DiskNaming(pair).caddyfile.value[0], pair);
  }

  /**
    Aborted runs. A run that is neither refused nor accepted keeps every disk safe if and
    only if it removes no pair before it stops: the main pair is there, and it is the one
    that does not decode, or the nofeebooking pair is there too.
   */
  lemma AbortedRunIsSafe(template: seq<string>, e: Environment)
    requires !IsHalfPair(e) && !Accepted(Some(template), e)
    ensures (forall disk: Disk, partial: Bytes ::
               Safe(disk) ==> Safe(Run(disk, Some(template), e, partial).0))
            <==> RemovesNothing(e)
  {
    forall disk: Disk, partial: Bytes | Safe(disk) && RemovesNothing(e)
      ensures Safe(Run(disk, Some(template), e, partial).0)
    {
      AbortKeepsNames(disk.files, e, partial);
      OutcomeOfRun(disk, Some(template), e, partial);
      KeepsSafe(disk, Run(disk, Some(template), e, partial).0);
    }
    if !RemovesNothing(e) {
      var disk := DiskNaming(RemovedPair(e));
      DiskNamingIsSafe(RemovedPair(e));
      OutcomeOfRun(disk, Some(template), e, []);
      AbortRemoves(disk.files, e, []);
      assert !BothOnDisk(Run(disk, Some(template), e, []).0, RemovedPair(e));
      assert !Safe(Run(disk, Some(template), e, []).0);
    }
  }

  lemma KeepsSafe(before: Disk, after: Disk)
    requires Safe(before) && after.caddyfile == before.caddyfile && before.files.Keys <= after.files.Keys
    ensures Safe(after)
  {
  }

  /** Bad base64 for the www certificate stops the script after it has removed the
      nofeebooking pair, which the Caddyfile that stays in place names. */
  lemma AbortLeavesDanglingPath(template: seq<string>, partial: Bytes)
    ensures var e := Environment("", "", "", "", "!", "!", "", "", "", "", "", "", "", "", "");
            var disk := DiskNaming(NOFEE);
            var (after, outcome) := Run(disk, Some(template), e, partial);
            && Safe(disk) && Named(disk.caddyfile.value, NOFEE)
            && outcome.BadBase64? && after.caddyfile == disk.caddyfile
            && Crt(NOFEE) !in after.files && !Safe(after)
  {
    var e := Environment("", "", "", "", "!", "!", "", "", "", "", "", "", "", "", "");
    var disk := DiskNaming(NOFEE);
    assert DecodeText("!").None?;
    DiskNamingIsSafe(NOFEE);
    OutcomeOfRun(disk, Some(template), e, partial);
    NofeeIsRemoved(disk.files, e, partial);
    assert !BothOnDisk(Run(disk, Some(template), e, partial).0, NOFEE);
  }

  /**
    All runs over tidy templates. A run keeps every disk safe if and only if it is
    accepted, refused up front, or aborted before it has removed a pair.
   */
  lemma RunIsSafe(template: seq<string>, e: Environment)
    requires Tidy(template) && GoodAddresses(e)
    ensures (forall disk: Disk, partial: Bytes ::
               Safe(disk) ==> Safe(Run(disk, Some(template), e, partial).0))
            <==> Accepted(Some(template), e) || IsHalfPair(e) || RemovesNothing(e)
  {
    if Accepted(Some(template), e) {
      forall disk: Disk, partial: Bytes | Safe(disk) ensures Safe(Run(disk, Some(template), e, partial).0) {
        AcceptedRunIsSafe(disk, template, e, partial);
      }
    } else if !IsHalfPair(e) {
      AbortedRunIsSafe(template, e);
    }
  }
}
