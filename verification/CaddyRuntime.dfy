/**
  scripts/deploy/render-infra-caddyfile.sh as a whole: certificate files on disk, written
  or removed one after the other, and the Caddyfile rendered from the template.
 */
module CaddyRuntime {
  import opened Wrappers
  import opened Base64
  import opened Substitution
  import opened Sections

  type Bytes = seq<Byte>

  /** The variables the script reads; an unset one is "" to it. */
  datatype Environment = Environment(
    tlsCert: string, tlsKey: string,
    nofeeCert: string, nofeeKey: string, wwwCert: string, wwwKey: string,
    tlsSource: string, sentry: string, nofeebooking: string, storj: string,
    sentryIp: string, nofeeIp: string, backend2: string, backend3: string, storjIp: string)

  datatype Outcome = Rendered | MissingTemplate | HalfPair | BadBase64

  /** The tls directory, by file name, and the rendered Caddyfile. */
  datatype Disk = Disk(files: map<string, Bytes>, caddyfile: Option<seq<string>>)

  const TLS := "tls"
  const NOFEE := "nofeebooking"
  const WWW := "nofeebooking-www"

  function Crt(pair: string): string { pair + ".crt" }
  function Key(pair: string): string { pair + ".key" }
  function Names(pair: string): set<string> { {Crt(pair), Key(pair)} }

  function SettingsOf(e: Environment): Settings {
    Settings(OrElse(e.sentry, "false"), OrElse(e.nofeebooking, "false"), OrElse(e.tlsSource, "false"),
             OrElse(e.storj, "false"))
  }

  predicate Paired(cert: string, key: string) { cert != "" && key != "" }

  /** Where the proxy sees the tls directory. */
  const TLS_PATH := "/etc/caddy/tls/"

  function Directive(pair: string): string {
    "    tls " + (TLS_PATH + (Crt(pair) + (" " + (TLS_PATH + Key(pair)))))
  }

  function DirectiveFor(pair: string, wanted: bool): string { if wanted then Directive(pair) else "" }

  predicate NofeeWanted(e: Environment) { e.tlsSource != "true" && Paired(e.nofeeCert, e.nofeeKey) }
  predicate WwwWanted(e: Environment) { e.tlsSource != "true" && Paired(e.wwwCert, e.wwwKey) }

  /** The values of the holes, in the order of the substitutions. */
  function Bindings(e: Environment, tls: string, nofee: string, www: string): seq<Binding> {
    [Binding("TLS_DIRECTIVE", tls),
     Binding("NOFEEBOOKING_TLS_DIRECTIVE", nofee),
     Binding("NOFEEBOOKING_WWW_TLS_DIRECTIVE", www),
     Binding("SENTRY_SERVER_IP", OrElse(e.sentryIp, "94.130.13.115")),
     Binding("NOFEEBOOKING_SERVER_IP", OrElse(e.nofeeIp, "94.130.13.115")),
     Binding("NOFEEBOOKING_BACKEND_2", OrElse(e.backend2, "88.99.151.102")),
     Binding("NOFEEBOOKING_BACKEND_3", OrElse(e.backend3, "138.201.129.173")),
     Binding("STORJ_SERVER_IP", OrElse(e.storjIp, "94.130.13.115"))]
  }

  function BindingsOf(e: Environment): seq<Binding> {
    Bindings(e, DirectiveFor(TLS, Paired(e.tlsCert, e.tlsKey)), DirectiveFor(NOFEE, NofeeWanted(e)),
             DirectiveFor(WWW, WwwWanted(e)))
  }

  // ---------- the files ----------

  datatype FileCommand = Write(name: string, text: string) | Remove(names: set<string>)

  /** Commands in order, until a text does not decode: then that file holds whatever the
      decoder had written, here `partial`, and the script stops. */
  function Perform(files: map<string, Bytes>, commands: seq<FileCommand>, partial: Bytes): (map<string, Bytes>, bool)
    decreases |commands|
  {
    if commands == [] then (files, true)
    else
      match commands[0]
      case Remove(names) => Perform(files - names, commands[1..], partial)
      case Write(name, text) =>
        match DecodeText(text)
        case None => (files[name := partial], false)
        case Some(bytes) => Perform(files[name := bytes], commands[1..], partial)
  }

  function PairCommands(pair: string, cert: string, key: string): seq<FileCommand> {
    if Paired(cert, key) then [Write(Crt(pair), cert), Write(Key(pair), key)]
    else [Remove(Names(pair))]
  }

  /** The host that renews the nofeebooking certificates must not pin them to files. */
  function NofeeCommands(e: Environment): seq<FileCommand> {
    if e.tlsSource == "true" then [Remove(Names(NOFEE))] + [Remove(Names(WWW))]
    else PairCommands(NOFEE, e.nofeeCert, e.nofeeKey) + PairCommands(WWW, e.wwwCert, e.wwwKey)
  }

  function Commands(e: Environment): seq<FileCommand> {
    PairCommands(TLS, e.tlsCert, e.tlsKey) + NofeeCommands(e)
  }

  predicate IsHalfPair(e: Environment) { (e.tlsCert == "") != (e.tlsKey == "") }

  /** One run of the script. */
  function Run(disk: Disk, template: Option<seq<string>>, e: Environment, partial: Bytes): (Disk, Outcome) {
    if template.None? then (disk, MissingTemplate)
    else if IsHalfPair(e) then (disk, HalfPair)
    else
      var (files, done) := Perform(disk.files, Commands(e), partial);
      if !done then (disk.(files := files), BadBase64)
      else (Disk(files, Some(Output(false, template.value, SettingsOf(e), BindingsOf(e)))), Outcome.Rendered)
  }

  lemma {:induction false} PerformConcat(files: map<string, Bytes>, a: seq<FileCommand>, b: seq<FileCommand>,
                                         partial: Bytes)
    ensures var (middle, done) := Perform(files, a, partial);
            Perform(files, a + b, partial) == if done then Perform(middle, b, partial) else (middle, false)
    decreases |a|
  {
    if a == [] {
      assert a + b == b;
    } else {
      assert (a + b)[1..] == a[1..] + b;
      match a[0]
      case Remove(names) => PerformConcat(files - names, a[1..], b, partial);
      case Write(name, text) =>
        if DecodeText(text).Some? { PerformConcat(files[name := DecodeText(text).value], a[1..], b, partial); }
    }
  }

  lemma PerformWrite(files: map<string, Bytes>, name: string, text: string, partial: Bytes)
    ensures Perform(files, [Write(name, text)], partial)
         == match DecodeText(text) { case None => (files[name := partial], false)
                                     case Some(bytes) => (files[name := bytes], true) }
  {
    assert [Write(name, text)][1..] == [];
    if DecodeText(text).Some? { assert Perform(files[name := DecodeText(text).value], [], partial).1; }
  }

  lemma PerformRemove(files: map<string, Bytes>, names: set<string>, partial: Bytes)
    ensures Perform(files, [Remove(names)], partial) == (files - names, true)
  {
    assert [Remove(names)][1..] == [];
    assert Perform(files - names, [], partial).1;
  }

  /** The script, statement by statement. */
  class InfraRuntime {
    var files: map<string, Bytes>
    var caddyfile: Option<seq<string>>

    constructor (disk: Disk)
      ensures files == disk.files && caddyfile == disk.caddyfile
    {
      files := disk.files;
      caddyfile := disk.caddyfile;
    }

    /** `printf '%s' ... | base64 --decode > file` under `set -e` and `pipefail`. */
    method WriteDecoded(name: string, text: string, partial: Bytes) returns (done: bool)
      modifies this`files
      ensures (files, done) == Perform(old(files), [Write(name, text)], partial)
    {
      PerformWrite(files, name, text, partial);
      match DecodeText(text) {
        case Some(bytes) => files := files[name := bytes]; done := true;
        case None => files := files[name := partial]; done := false;
      }
    }

    method RemovePair(pair: string)
      modifies this`files
      ensures files == old(files) - Names(pair)
    {
      files := files - Names(pair);
    }

    /** The two branches for one certificate pair, with the directive they leave. */
    method InstallPair(pair: string, cert: string, key: string, partial: Bytes) returns (done: bool, directive: string)
      modifies this`files
      ensures (files, done) == Perform(old(files), PairCommands(pair, cert, key), partial)
      ensures done ==> directive == DirectiveFor(pair, Paired(cert, key))
    {
      directive := "";
      if cert != "" && key != "" {
        PerformConcat(files, [Write(Crt(pair), cert)], [Write(Key(pair), key)], partial);
        assert PairCommands(pair, cert, key) == [Write(Crt(pair), cert)] + [Write(Key(pair), key)];
        done := WriteDecoded(Crt(pair), cert, partial);
        if done {
          done := WriteDecoded(Key(pair), key, partial);
          directive := Directive(pair);
        }
      } else {
        assert PairCommands(pair, cert, key)[1..] == [];
        RemovePair(pair);
        done := true;
      }
    }

    method InstallNofee(e: Environment, partial: Bytes) returns (done: bool, nofee: string, www: string)
      modifies this`files
      ensures (files, done) == Perform(old(files), NofeeCommands(e), partial)
      ensures done ==> nofee == DirectiveFor(NOFEE, NofeeWanted(e)) && www == DirectiveFor(WWW, WwwWanted(e))
    {
      nofee, www := "", "";
      if e.tlsSource == "true" {
        PerformRemove(files, Names(NOFEE), partial);
        PerformConcat(files, [Remove(Names(NOFEE))], [Remove(Names(WWW))], partial);
        RemovePair(NOFEE);
        PerformRemove(files, Names(WWW), partial);
        RemovePair(WWW);
        done := true;
      } else {
        PerformConcat(files, PairCommands(NOFEE, e.nofeeCert, e.nofeeKey),
                      PairCommands(WWW, e.wwwCert, e.wwwKey), partial);
        done, nofee := InstallPair(NOFEE, e.nofeeCert, e.nofeeKey, partial);
        if done {
          done, www := InstallPair(WWW, e.wwwCert, e.wwwKey, partial);
        }
      }
    }

    method Render(template: Option<seq<string>>, e: Environment, partial: Bytes) returns (outcome: Outcome)
      modifies this
      ensures (Disk(files, caddyfile), outcome) == Run(Disk(old(files), old(caddyfile)), template, e, partial)
    {
      if template.None? {
        return MissingTemplate;
      }
      if e.tlsCert != "" && e.tlsKey == "" {
        return HalfPair;
      }
      if e.tlsKey != "" && e.tlsCert == "" {
        return HalfPair;
      }
      PerformConcat(files, PairCommands(TLS, e.tlsCert, e.tlsKey), NofeeCommands(e), partial);
      var done, tls := InstallPair(TLS, e.tlsCert, e.tlsKey, partial);
      if !done {
        return BadBase64;
      }
      var nofee, www;
      done, nofee, www := InstallNofee(e, partial);
      if !done {
        return BadBase64;
      }
      var lines := RenderLines(template.value, SettingsOf(e), Bindings(e, tls, nofee, www));
      caddyfile := Some(lines);
      outcome := Outcome.Rendered;
    }
  }

  // ---------- what a run leaves ----------

  function Managed(): set<string> { Names(TLS) + (Names(NOFEE) + Names(WWW)) }

  predicate Decodes(cert: string, key: string) {
    Paired(cert, key) ==> DecodeText(cert).Some? && DecodeText(key).Some?
  }

  /** Whether a run is accepted depends on its inputs alone. */
  predicate Accepted(template: Option<seq<string>>, e: Environment) {
    && template.Some? && !IsHalfPair(e) && Decodes(e.tlsCert, e.tlsKey)
    && (e.tlsSource != "true" ==> Decodes(e.nofeeCert, e.nofeeKey) && Decodes(e.wwwCert, e.wwwKey))
  }

  function PairFiles(pair: string, wanted: bool, cert: string, key: string): (files: map<string, Bytes>)
    requires wanted ==> Paired(cert, key) && Decodes(cert, key)
    ensures files.Keys <= Names(pair)
  {
    if wanted then map[Crt(pair) := DecodeText(cert).value, Key(pair) := DecodeText(key).value] else map[]
  }

  /** The certificate files that the inputs ask for. */
  function Wanted(e: Environment): map<string, Bytes>
    requires Accepted(Some([]), e)
  {
    PairFiles(TLS, Paired(e.tlsCert, e.tlsKey), e.tlsCert, e.tlsKey)
    + (PairFiles(NOFEE, NofeeWanted(e), e.nofeeCert, e.nofeeKey)
       + PairFiles(WWW, WwwWanted(e), e.wwwCert, e.wwwKey))
  }

  lemma PerformPair(files: map<string, Bytes>, pair: string, cert: string, key: string, partial: Bytes)
    ensures var (after, done) := Perform(files, PairCommands(pair, cert, key), partial);
            && done == Decodes(cert, key)
            && after - Names(pair) == files - Names(pair)
            && (done ==> after == files - Names(pair) + PairFiles(pair, Paired(cert, key), cert, key))
  {
    var commands := PairCommands(pair, cert, key);
    assert Crt(pair)[|pair| + 1] == 'c' && Key(pair)[|pair| + 1] == 'k';
    if Paired(cert, key) {
      PerformWrite(files, Crt(pair), cert, partial);
      PerformConcat(files, [Write(Crt(pair), cert)], [Write(Key(pair), key)], partial);
      assert commands == [Write(Crt(pair), cert)] + [Write(Key(pair), key)];
      if DecodeText(cert).Some? {
        PerformWrite(files[Crt(pair) := DecodeText(cert).value], Key(pair), key, partial);
      }
    } else {
      assert commands[1..] == [];
      assert Perform(files - Names(pair), [], partial) == (files - Names(pair), true);
    }
  }

  lemma NamesDiffer()
    ensures Names(TLS) !! Names(NOFEE)
    ensures Names(TLS) !! Names(WWW)
    ensures Names(NOFEE) !! Names(WWW)
  {
    assert |Crt(TLS)| == |Key(TLS)| == 7 && |Crt(NOFEE)| == |Key(NOFEE)| == 16 && |Crt(WWW)| == |Key(WWW)| == 20;
  }

  /** Replacing the files of two disjoint sets of names, one set after the other. */
  lemma ReplaceTwice(files: map<string, Bytes>, a: set<string>, b: set<string>,
                     fa: map<string, Bytes>, fb: map<string, Bytes>)
    requires a !! b && fa.Keys <= a && fb.Keys <= b
    ensures files - a + fa - b + fb == files - (a + b) + (fa + fb)
  {
  }

  lemma KeptTwice(files: map<string, Bytes>, middle: map<string, Bytes>, after: map<string, Bytes>,
                  a: set<string>, b: set<string>)
    requires middle - a == files - a && after - b == middle - b
    ensures after - (a + b) == files - (a + b)
  {
    assert after - (a + b) == (after - b) - a && (middle - b) - a == (middle - a) - b;
    assert (files - a) - b == files - (a + b);
  }

  lemma PerformNofee(files: map<string, Bytes>, e: Environment, partial: Bytes)
    ensures var (after, done) := Perform(files, NofeeCommands(e), partial);
            var names := Names(NOFEE) + Names(WWW);
            && done == (e.tlsSource != "true" ==> Decodes(e.nofeeCert, e.nofeeKey) && Decodes(e.wwwCert, e.wwwKey))
            && after - names == files - names
            && (done ==> after == files - names + (PairFiles(NOFEE, NofeeWanted(e), e.nofeeCert, e.nofeeKey)
                                                   + PairFiles(WWW, WwwWanted(e), e.wwwCert, e.wwwKey)))
  {
    NamesDiffer();
    if e.tlsSource == "true" {
      PerformRemove(files, Names(NOFEE), partial);
      PerformRemove(files - Names(NOFEE), Names(WWW), partial);
      PerformConcat(files, [Remove(Names(NOFEE))], [Remove(Names(WWW))], partial);
      assert files - Names(NOFEE) - Names(WWW) == files - (Names(NOFEE) + Names(WWW));
    } else {
      var (middle, done) := Perform(files, PairCommands(NOFEE, e.nofeeCert, e.nofeeKey), partial);
      var after := Perform(middle, PairCommands(WWW, e.wwwCert, e.wwwKey), partial).0;
      PerformPair(files, NOFEE, e.nofeeCert, e.nofeeKey, partial);
      PerformConcat(files, PairCommands(NOFEE, e.nofeeCert, e.nofeeKey), PairCommands(WWW, e.wwwCert, e.wwwKey),
                    partial);
      PerformPair(middle, WWW, e.wwwCert, e.wwwKey, partial);
      KeptTwice(files, middle, after, Names(NOFEE), Names(WWW));
      KeptTwice(files, middle, middle, Names(NOFEE), Names(WWW));
      if done && Decodes(e.wwwCert, e.wwwKey) {
        ReplaceTwice(files, Names(NOFEE), Names(WWW), PairFiles(NOFEE, NofeeWanted(e), e.nofeeCert, e.nofeeKey),
                     PairFiles(WWW, WwwWanted(e), e.wwwCert, e.wwwKey));
      }
    }
  }

  lemma PerformAll(files: map<string, Bytes>, e: Environment, partial: Bytes)
    requires !IsHalfPair(e)
    ensures var (after, done) := Perform(files, Commands(e), partial);
            && done == Accepted(Some([]), e)
            && after - Managed() == files - Managed()
            && (done ==> after == files - Managed() + Wanted(e))
  {
    NamesDiffer();
    var (middle, done) := Perform(files, PairCommands(TLS, e.tlsCert, e.tlsKey), partial);
    var after := Perform(middle, NofeeCommands(e), partial).0;
    PerformPair(files, TLS, e.tlsCert, e.tlsKey, partial);
    PerformConcat(files, PairCommands(TLS, e.tlsCert, e.tlsKey), NofeeCommands(e), partial);
    PerformNofee(middle, e, partial);
    KeptTwice(files, middle, after, Names(TLS), Names(NOFEE) + Names(WWW));
    KeptTwice(files, middle, middle, Names(TLS), Names(NOFEE) + Names(WWW));
    if Accepted(Some([]), e) {
      ReplaceTwice(files, Names(TLS), Names(NOFEE) + Names(WWW),
                   PairFiles(TLS, Paired(e.tlsCert, e.tlsKey), e.tlsCert, e.tlsKey),
                   PairFiles(NOFEE, NofeeWanted(e), e.nofeeCert, e.nofeeKey)
                   + PairFiles(WWW, WwwWanted(e), e.wwwCert, e.wwwKey));
    }
  }

  /** A run is accepted exactly when its inputs say so; then the managed files and the
      Caddyfile depend on these inputs alone. A rejected half pair or a missing template
      changes nothing; text that is not base64 can spoil managed files only. */
  lemma OutcomeOfRun(disk: Disk, template: Option<seq<string>>, e: Environment, partial: Bytes)
    ensures var (after, outcome) := Run(disk, template, e, partial);
            && (outcome.Rendered? <==> Accepted(template, e))
            && (outcome.Rendered? ==>
                  after == Disk(disk.files - Managed() + Wanted(e),
                                Some(Output(false, template.value, SettingsOf(e), BindingsOf(e)))))
            && (outcome.HalfPair? || outcome.MissingTemplate? ==> after == disk)
            && (outcome.BadBase64? ==> after.caddyfile == disk.caddyfile
                                       && after.files - Managed() == disk.files - Managed())
  {
    if template.Some? && !IsHalfPair(e) { PerformAll(disk.files, e, partial); }
  }

  lemma {:induction false} AbortLeavesPartial(files: map<string, Bytes>, commands: seq<FileCommand>, partial: Bytes)
    ensures var (after, done) := Perform(files, commands, partial);
            !done ==> exists name :: name in after && after[name] == partial
    decreases |commands|
  {
    if commands != [] {
      match commands[0]
      case Remove(names) => AbortLeavesPartial(files - names, commands[1..], partial);
      case Write(name, text) =>
        if DecodeText(text).Some? {
          AbortLeavesPartial(files[name := DecodeText(text).value], commands[1..], partial);
        } else {
          assert name in files[name := partial];
        }
    }
  }

  /** The only runs that never change anything are those without a template and those with
      half of the main pair: a half nofeebooking pair or bad base64 is not refused up front. */
  lemma OnlyRefusedRunsChangeNothing(template: Option<seq<string>>, e: Environment)
    ensures (forall disk: Disk, partial: Bytes :: Run(disk, template, e, partial).0 == disk)
            <==> template.None? || IsHalfPair(e)
  {
    if template.Some? && !IsHalfPair(e) {
      var empty := Disk(map[], None);
      var (after, outcome) := Run(empty, template, e, []);
      AbortLeavesPartial(empty.files, Commands(e), []);
      assert after != empty;
    }
  }

  // ---------- sequences of runs ----------

  datatype Input = Input(template: Option<seq<string>>, e: Environment, partial: Bytes)

  function RunAll(disk: Disk, inputs: seq<Input>): Disk {
    if inputs == [] then disk
    else
      var x := inputs[|inputs| - 1];
      Run(RunAll(disk, inputs[..|inputs| - 1]), x.template, x.e, x.partial).0
  }

  /** The run leaves everything alone: no template, or half of the main pair. */
  predicate Refused(x: Input) { x.template.None? || IsHalfPair(x.e) }

  lemma {:induction false} OthersUntouched(disk: Disk, inputs: seq<Input>)
    ensures RunAll(disk, inputs).files - Managed() == disk.files - Managed()
  {
    if inputs != [] {
      var x := inputs[|inputs| - 1];
      var before := RunAll(disk, inputs[..|inputs| - 1]);
      OthersUntouched(disk, inputs[..|inputs| - 1]);
      OutcomeOfRun(before, x.template, x.e, x.partial);
      if Accepted(x.template, x.e) { WantedIsManaged(x.e); }
    }
  }

  lemma WantedIsManaged(e: Environment)
    requires Accepted(Some([]), e)
    ensures Wanted(e).Keys <= Managed()
  {
  }

  lemma RunAllOneMore(disk: Disk, inputs: seq<Input>, x: Input)
    ensures RunAll(disk, inputs + [x]) == Run(RunAll(disk, inputs), x.template, x.e, x.partial).0
  {
    assert (inputs + [x])[..|inputs|] == inputs;
  }

  /** The disk that an accepted run's inputs describe, next to the files not managed. */
  function Described(unmanaged: map<string, Bytes>, x: Input): Disk
    requires Accepted(x.template, x.e)
  {
    Disk(unmanaged + Wanted(x.e), Some(Output(false, x.template.value, SettingsOf(x.e), BindingsOf(x.e))))
  }

  /**
    Runs do not depend on their history: whatever was on the disk and whatever runs came
    before, aborted ones included, after an accepted run and any number of refused ones
    the certificate files and the Caddyfile are those of the accepted run's inputs, and
    all other files are as they were.
   */
  lemma {:induction false} LastAcceptedRunDecides(disk: Disk, before: seq<Input>, x: Input, refused: seq<Input>)
    requires Accepted(x.template, x.e)
    requires forall i :: 0 <= i < |refused| ==> Refused(refused[i])
    ensures RunAll(disk, before + [x] + refused) == Described(disk.files - Managed(), x)
    decreases |refused|
  {
    hide Output, Commands, BindingsOf, SettingsOf, Wanted, Perform, Decodes;
    if refused == [] {
      OthersUntouched(disk, before);
      OutcomeOfRun(RunAll(disk, before), x.template, x.e, x.partial);
      RunAllOneMore(disk, before, x);
      assert before + [x] + refused == before + [x];
    } else {
      var last := |refused| - 1;
      assert before + [x] + refused == before + [x] + refused[..last] + [refused[last]];
      RunAllOneMore(disk, before + [x] + refused[..last], refused[last]);
      LastAcceptedRunDecides(disk, before, x, refused[..last]);
    }
  }

  /** A certificate directive is in the bindings exactly when its two files are on disk,
      with the contents that were passed in. */
  lemma DirectivesNameExistingFiles(disk: Disk, template: Option<seq<string>>, e: Environment, partial: Bytes)
    requires Accepted(template, e)
    ensures var files := Run(disk, template, e, partial).0.files;
            && HasPair(files, TLS, Paired(e.tlsCert, e.tlsKey), e.tlsCert, e.tlsKey)
            && HasPair(files, NOFEE, NofeeWanted(e), e.nofeeCert, e.nofeeKey)
            && HasPair(files, WWW, WwwWanted(e), e.wwwCert, e.wwwKey)
    ensures var files := Run(disk, template, e, partial).0.files;
            && DirectiveMatches(files, TLS, BindingsOf(e)[0].value)
            && DirectiveMatches(files, NOFEE, BindingsOf(e)[1].value)
            && DirectiveMatches(files, WWW, BindingsOf(e)[2].value)
  {
    OutcomeOfRun(disk, template, e, partial);
    NamesDiffer();
    hide Run, HasPair, DirectiveMatches, DecodeText, Output, Paired;
    var rest := disk.files - Managed();
    var tls := PairFiles(TLS, Paired(e.tlsCert, e.tlsKey), e.tlsCert, e.tlsKey);
    var nofee := PairFiles(NOFEE, NofeeWanted(e), e.nofeeCert, e.nofeeKey);
    var www := PairFiles(WWW, WwwWanted(e), e.wwwCert, e.wwwKey);
    PairInFiles(rest + (tls + (nofee + www)), TLS, Paired(e.tlsCert, e.tlsKey), e.tlsCert, e.tlsKey);
    PairInFiles(rest + (tls + (nofee + www)), NOFEE, NofeeWanted(e), e.nofeeCert, e.nofeeKey);
    PairInFiles(rest + (tls + (nofee + www)), WWW, WwwWanted(e), e.wwwCert, e.wwwKey);
  }

  lemma PairInFiles(files: map<string, Bytes>, pair: string, wanted: bool, cert: string, key: string)
    requires wanted ==> Paired(cert, key) && Decodes(cert, key)
    requires forall name :: name in Names(pair) ==>
               (name in files <==> name in PairFiles(pair, wanted, cert, key))
               && (name in files ==> files[name] == PairFiles(pair, wanted, cert, key)[name])
    ensures HasPair(files, pair, wanted, cert, key)
    ensures DirectiveMatches(files, pair, DirectiveFor(pair, wanted))
  {
    NamesInPair(pair);
    assert Crt(pair) in Names(pair) && Key(pair) in Names(pair);
  }

  /** The directive is there with both files, or none of the three is. */
  predicate DirectiveMatches(files: map<string, Bytes>, pair: string, directive: string) {
    if directive == "" then Crt(pair) !in files && Key(pair) !in files
    else directive == Directive(pair) && Crt(pair) in files && Key(pair) in files
  }

  predicate HasPair(files: map<string, Bytes>, pair: string, wanted: bool, cert: string, key: string) {
    if wanted then
      && Crt(pair) in files && Some(files[Crt(pair)]) == DecodeText(cert)
      && Key(pair) in files && Some(files[Key(pair)]) == DecodeText(key)
    else Crt(pair) !in files && Key(pair) !in files
  }

  lemma NamesInPair(pair: string)
    ensures Crt(pair) != Key(pair) && Directive(pair) != ""
  {
    assert Crt(pair)[|pair| + 1] == 'c' && Key(pair)[|pair| + 1] == 'k';
  }

  /** The pairs that come after the main one can be written, or are not asked for. */
  predicate LaterPairsDecode(e: Environment) {
    e.tlsSource != "true" ==> Decodes(e.nofeeCert, e.nofeeKey) && Decodes(e.wwwCert, e.wwwKey)
  }

  /** The commands for the later pairs do not touch the files of the main one. */
  lemma MainPairIsKept(files: map<string, Bytes>, e: Environment, partial: Bytes)
    ensures var after := Perform(files, NofeeCommands(e), partial).0;
            forall name | name in Names(TLS) ::
              (name in after <==> name in files) && (name in files ==> after[name] == files[name])
  {
    NamesDiffer();
    PerformNofee(files, e, partial);
    var after, names := Perform(files, NofeeCommands(e), partial).0, Names(NOFEE) + Names(WWW);
    forall name | name in Names(TLS)
      ensures (name in after <==> name in files) && (name in files ==> after[name] == files[name])
    {
      assert name in after <==> name in after - names;
      assert name in files <==> name in files - names;
      if name in files { assert (after - names)[name] == (files - names)[name]; }
    }
  }

  lemma MainPairAfterRun(disk: Disk, template: seq<string>, e: Environment, partial: Bytes)
    requires !IsHalfPair(e) && Decodes(e.tlsCert, e.tlsKey)
    ensures var (after, outcome) := Run(disk, Some(template), e, partial);
            && HasPair(after.files, TLS, Paired(e.tlsCert, e.tlsKey), e.tlsCert, e.tlsKey)
            && (outcome.Rendered? <==> LaterPairsDecode(e))
            && (outcome.BadBase64? <==> !LaterPairsDecode(e))
  {
    var tls := PairCommands(TLS, e.tlsCert, e.tlsKey);
    var middle := Perform(disk.files, tls, partial).0;
    PerformPair(disk.files, TLS, e.tlsCert, e.tlsKey, partial);
    PerformConcat(disk.files, tls, NofeeCommands(e), partial);
    PerformNofee(middle, e, partial);
    MainPairIsKept(middle, e, partial);
    NamesInPair(TLS);
    assert Crt(TLS) in Names(TLS) && Key(TLS) in Names(TLS);
  }

  /** An exported certificate and key are installed byte for byte, on every host and even if
      a later pair aborts the run, unless one of them is empty: an empty export is an unset
      variable to the script. */
  lemma ExportedPairIsInstalled(disk: Disk, template: seq<string>, e: Environment,
                                cert: Bytes, key: Bytes, partial: Bytes)
    requires e.tlsCert == WriteBase64File(cert) && e.tlsKey == WriteBase64File(key)
    ensures var (after, outcome) := Run(disk, Some(template), e, partial);
            && (cert != [] && key != [] ==>
                  Crt(TLS) in after.files && after.files[Crt(TLS)] == cert
                  && Key(TLS) in after.files && after.files[Key(TLS)] == key)
            && (cert == [] && key == [] ==> Crt(TLS) !in after.files && Key(TLS) !in after.files)
            && (if (cert == []) != (key == []) then outcome.HalfPair? && after == disk
                else if LaterPairsDecode(e) then outcome.Rendered? else outcome.BadBase64?)
  {
    ExportRoundTrip(cert, 76);
    ExportRoundTrip(key, 76);
    if (cert == []) == (key == []) { MainPairAfterRun(disk, template, e, partial); }
  }
}
