/**
  The awk program of scripts/deploy/render-infra-caddyfile.sh: a line machine with one
  flag that drops guarded sections of the template, compared with templates as
  sequences of plain lines and sections.
 */
module Sections {
  import opened Wrappers
  import opened Substitution

  datatype Kind = SentryBlock | SentryProxy | NofeeBlock | NofeeStatic | NofeeProxy | StorjBlock | StorjProxy

  datatype Marker = Start(kind: Kind) | Stop(kind: Kind)

  function KindText(k: Kind): string {
    match k
    case SentryBlock => "SENTRY_BLOCK"
    case SentryProxy => "SENTRY_PROXY"
    case NofeeBlock => "NOFEEBOOKING_BLOCK"
    case NofeeStatic => "NOFEEBOOKING_STATIC"
    case NofeeProxy => "NOFEEBOOKING_PROXY"
    case StorjBlock => "STORJ_BLOCK"
    case StorjProxy => "STORJ_PROXY"
  }

  function MarkerText(m: Marker): string {
    match m
    case Start(k) => "__" + KindText(k) + "_START__"
    case Stop(k) => "__" + KindText(k) + "_END__"
  }

  /** The patterns in the order in which the program tries them. */
  const MARKERS: seq<Marker> := [
    Start(SentryBlock), Stop(SentryBlock), Start(SentryProxy), Stop(SentryProxy),
    Start(NofeeBlock), Stop(NofeeBlock), Start(NofeeStatic), Stop(NofeeStatic),
    Start(NofeeProxy), Stop(NofeeProxy), Start(StorjBlock), Stop(StorjBlock),
    Start(StorjProxy), Stop(StorjProxy)
  ]

  predicate Contains(line: string, pattern: string)
    decreases |line|
  {
    pattern <= line || (line != [] && Contains(line[1..], pattern))
  }

  function FirstMatch(line: string, markers: seq<Marker>): Option<Marker> {
    if markers == [] then None
    else if Contains(line, MarkerText(markers[0])) then Some(markers[0])
    else FirstMatch(line, markers[1..])
  }

  /** The pattern whose action the line triggers: the first one it contains. */
  function MarkerOf(line: string): Option<Marker> { FirstMatch(line, MARKERS) }

  // ---------- settings ----------

  /** The four settings as the program gets them; each counts only if it is "true". */
  datatype Settings = Settings(sentry: string, nofeebooking: string, tlsSource: string, storj: string)

  predicate Skipped(k: Kind, s: Settings) {
    match k
    case SentryBlock => s.sentry != "true"
    case SentryProxy => s.sentry == "true"
    case NofeeBlock => s.nofeebooking != "true" || s.tlsSource != "true"
    case NofeeStatic => s.nofeebooking != "true" || s.tlsSource == "true"
    case NofeeProxy => s.nofeebooking == "true"
    case StorjBlock => s.storj != "true"
    case StorjProxy => s.storj == "true"
  }

  datatype Service = Sentry | Nofeebooking | Storj

  function ServiceOf(k: Kind): Service {
    match k
    case SentryBlock | SentryProxy => Sentry
    case NofeeBlock | NofeeStatic | NofeeProxy => Nofeebooking
    case StorjBlock | StorjProxy => Storj
  }

  /** The one alternative of a service that a server renders: exactly one is kept. */
  function Alternative(service: Service, s: Settings): (chosen: Kind)
    ensures ServiceOf(chosen) == service
    ensures forall k: Kind :: ServiceOf(k) == service ==> (k == chosen <==> !Skipped(k, s))
  {
    match service
    case Sentry => if s.sentry == "true" then SentryBlock else SentryProxy
    case Storj => if s.storj == "true" then StorjBlock else StorjProxy
    case Nofeebooking =>
      if s.nofeebooking != "true" then NofeeProxy
      else if s.tlsSource == "true" then NofeeBlock else NofeeStatic
  }

  // ---------- the flag machine ----------

  /** The flag as the last marker line leaves it; `flag` if there is no marker line. */
  function FlagAfter(flag: bool, lines: seq<string>, s: Settings): bool {
    if lines == [] then flag
    else
      match MarkerOf(lines[|lines| - 1])
      case None => FlagAfter(flag, lines[..|lines| - 1], s)
      case Some(Start(k)) => Skipped(k, s)
      case Some(Stop(_)) => false
  }

  /** Every line that is no marker and comes while the flag is down, with its holes filled. */
  function Output(flag: bool, lines: seq<string>, s: Settings, bindings: seq<Binding>): seq<string> {
    if lines == [] then []
    else
      var last := |lines| - 1;
      Output(flag, lines[..last], s, bindings)
      + (if MarkerOf(lines[last]).Some? || FlagAfter(flag, lines[..last], s) then []
         else [Chain(lines[last], bindings)])
  }

  /** The awk program: one flag, one pass, for every template, bracketed or not. */
  method RenderLines(template: seq<string>, s: Settings, bindings: seq<Binding>) returns (out: seq<string>)
    ensures out == Output(false, template, s, bindings)
  {
    hide MarkerOf;
    out := [];
    var skip := false;
    for i := 0 to |template|
      invariant skip == FlagAfter(false, template[..i], s)
      invariant out == Output(false, template[..i], s, bindings)
    {
      assert template[..i + 1][..i] == template[..i];
      var line := template[i];
      match MarkerOf(line) {
        case Some(Start(k)) => skip := Skipped(k, s);
        case Some(Stop(_)) => skip := false;
        case None =>
          if !skip {
            for j := 0 to |bindings|
              invariant Chain(line, bindings[j..]) == Chain(template[i], bindings)
            {
              var pattern := Placeholder(bindings[j].name);
              assert bindings[j..][1..] == bindings[j + 1..];
              line := ReplaceAll(line, pattern, Expand(bindings[j].value, pattern));
            }
            assert bindings[|bindings|..] == [];
            out := out + [line];
          }
      }
    }
    assert template[..|template|] == template;
  }

  // ---------- structured templates ----------

  datatype Piece = Plain(line: string) | Section(start: string, kind: Kind, body: seq<string>, stop: string)

  /** A flat section is a start marker, lines that are no markers, and its stop marker. */
  ghost predicate Flat(piece: Piece) {
    match piece
    case Plain(line) => MarkerOf(line).None?
    case Section(start, kind, body, stop) =>
      && MarkerOf(start) == Some(Start(kind)) && MarkerOf(stop) == Some(Stop(kind))
      && NoMarkers(body)
  }

  ghost predicate NoMarkers(lines: seq<string>) {
    forall i :: 0 <= i < |lines| ==> MarkerOf(lines[i]).None?
  }

  ghost predicate AllFlat(pieces: seq<Piece>) {
    forall i :: 0 <= i < |pieces| ==> Flat(pieces[i])
  }

  function PieceLines(piece: Piece): seq<string> {
    match piece
    case Plain(line) => [line]
    case Section(start, _, body, stop) => [start] + body + [stop]
  }

  function Lines(pieces: seq<Piece>): seq<string> {
    if pieces == [] then [] else Lines(pieces[..|pieces| - 1]) + PieceLines(pieces[|pieces| - 1])
  }

  /** What a piece means: its lines filled in, or nothing. */
  function Meaning(piece: Piece, s: Settings, bindings: seq<Binding>): seq<string> {
    match piece
    case Plain(line) => [Chain(line, bindings)]
    case Section(_, kind, body, _) => if Skipped(kind, s) then [] else ChainLines(body, bindings)
  }

  function MeaningAll(pieces: seq<Piece>, s: Settings, bindings: seq<Binding>): seq<string> {
    if pieces == [] then []
    else MeaningAll(pieces[..|pieces| - 1], s, bindings) + Meaning(pieces[|pieces| - 1], s, bindings)
  }

  lemma {:induction false} OutputConcat(flag: bool, a: seq<string>, b: seq<string>, s: Settings, bindings: seq<Binding>)
    ensures FlagAfter(flag, a + b, s) == FlagAfter(FlagAfter(flag, a, s), b, s)
    ensures Output(flag, a + b, s, bindings)
         == Output(flag, a, s, bindings) + Output(FlagAfter(flag, a, s), b, s, bindings)
    decreases |b|
  {
    if b == [] {
      assert a + b == a;
    } else {
      assert (a + b)[..|a + b| - 1] == a + b[..|b| - 1];
      OutputConcat(flag, a, b[..|b| - 1], s, bindings);
    }
  }

  lemma {:induction false} OutputOfBody(flag: bool, body: seq<string>, s: Settings, bindings: seq<Binding>)
    requires NoMarkers(body)
    ensures FlagAfter(flag, body, s) == flag
    ensures Output(flag, body, s, bindings) == if flag then [] else ChainLines(body, bindings)
  {
    hide MarkerOf;
    if body != [] {
      var last := |body| - 1;
      OutputOfBody(flag, body[..last], s, bindings);
      assert ChainLines(body, bindings) == ChainLines(body[..last], bindings) + [Chain(body[last], bindings)];
    }
  }

  lemma OutputOfLine(flag: bool, line: string, s: Settings, bindings: seq<Binding>)
    ensures FlagAfter(flag, [line], s)
         == match MarkerOf(line) { case None => flag case Some(Start(k)) => Skipped(k, s) case Some(Stop(_)) => false }
    ensures Output(flag, [line], s, bindings)
         == if MarkerOf(line).Some? || flag then [] else [Chain(line, bindings)]
  {
    assert [line][..0] == [];
  }

  /** For every template, even a malformed one, the last marker line alone decides the flag. */
  lemma LastMarkerDecides(flag: bool, before: seq<string>, line: string, after: seq<string>, s: Settings)
    requires MarkerOf(line).Some? && NoMarkers(after)
    ensures FlagAfter(flag, before + [line] + after, s)
         == (MarkerOf(line).value.Start? && Skipped(MarkerOf(line).value.kind, s))
  {
    hide MarkerOf;
    OutputConcat(flag, before + [line], after, s, []);
    OutputConcat(flag, before, [line], s, []);
    OutputOfLine(FlagAfter(flag, before, s), line, s, []);
    OutputOfBody(FlagAfter(flag, before + [line], s), after, s, []);
  }

  lemma OutputOfPiece(piece: Piece, s: Settings, bindings: seq<Binding>)
    requires Flat(piece)
    ensures !FlagAfter(false, PieceLines(piece), s)
    ensures Output(false, PieceLines(piece), s, bindings) == Meaning(piece, s, bindings)
  {
    match piece
    case Plain(line) => OutputOfLine(false, line, s, bindings);
    case Section(start, kind, body, stop) =>
      OutputOfLine(false, start, s, bindings);
      OutputConcat(false, [start], body, s, bindings);
      OutputOfBody(Skipped(kind, s), body, s, bindings);
      OutputConcat(false, [start] + body, [stop], s, bindings);
      OutputOfLine(Skipped(kind, s), stop, s, bindings);
  }

  /** On every flat, properly bracketed template and for all settings, the flag machine
      gives what the pieces mean. */
  lemma {:induction false} MachineMeansSections(pieces: seq<Piece>, s: Settings, bindings: seq<Binding>)
    requires AllFlat(pieces)
    ensures !FlagAfter(false, Lines(pieces), s)
    ensures Output(false, Lines(pieces), s, bindings) == MeaningAll(pieces, s, bindings)
  {
    if pieces != [] {
      var last := |pieces| - 1;
      MachineMeansSections(pieces[..last], s, bindings);
      OutputConcat(false, Lines(pieces[..last]), PieceLines(pieces[last]), s, bindings);
      OutputOfPiece(pieces[last], s, bindings);
    }
  }

  // ---------- which templates are properly bracketed ----------

  /** The section that is still open behind the lines, if they are bracketed so far. */
  datatype Bracketing = Broken | Closed | Open(kind: Kind)

  function Next(before: Bracketing, mark: Option<Marker>): Bracketing {
    match (before, mark)
    case (Closed, Some(Start(k))) => Open(k)
    case (Open(k), Some(Stop(j))) => if j == k then Closed else Broken
    case (_, None) => before
    case _ => Broken
  }

  function BracketingOf(lines: seq<string>): Bracketing {
    if lines == [] then Closed
    else Next(BracketingOf(lines[..|lines| - 1]), MarkerOf(lines[|lines| - 1]))
  }

  lemma BracketingOneMore(lines: seq<string>, line: string)
    ensures BracketingOf(lines + [line]) == Next(BracketingOf(lines), MarkerOf(line))
  {
    assert (lines + [line])[..|lines|] == lines;
  }

  /** Lines taken apart: complete pieces, and a section that is still open, if any. */
  datatype Parse = Parse(pieces: seq<Piece>, start: string, body: seq<string>)

  ghost predicate ParseOf(lines: seq<string>, state: Bracketing, parse: Parse) {
    && AllFlat(parse.pieces)
    && match state
       case Closed => Lines(parse.pieces) == lines
       case Open(k) => Lines(parse.pieces) + [parse.start] + parse.body == lines
                       && MarkerOf(parse.start) == Some(Start(k)) && NoMarkers(parse.body)
       case Broken => false
  }

  /** A line behind complete pieces: another plain line, or the start of a section. */
  lemma ParseOutside(lines: seq<string>, line: string, parse: Parse) returns (more: Parse)
    requires ParseOf(lines, Closed, parse) && !Next(Closed, MarkerOf(line)).Broken?
    ensures ParseOf(lines + [line], Next(Closed, MarkerOf(line)), more)
  {
    hide MarkerOf, Lines;
    if MarkerOf(line).None? {
      ExtendPieces(parse.pieces, Plain(line));
      more := parse.(pieces := parse.pieces + [Plain(line)]);
    } else {
      more := parse.(start := line, body := []);
      assert lines + [line] + [] == lines + [line];
    }
  }

  /** A line inside an open section: one more line of its body, or its end. */
  lemma ParseInside(lines: seq<string>, line: string, k: Kind, parse: Parse) returns (more: Parse)
    requires ParseOf(lines, Open(k), parse) && !Next(Open(k), MarkerOf(line)).Broken?
    ensures ParseOf(lines + [line], Next(Open(k), MarkerOf(line)), more)
  {
    hide MarkerOf, Lines;
    if MarkerOf(line).None? {
      more := parse.(body := parse.body + [line]);
      assert lines + [line] == Lines(parse.pieces) + [parse.start] + (parse.body + [line]);
    } else {
      var section := Section(parse.start, k, parse.body, line);
      ExtendPieces(parse.pieces, section);
      more := parse.(pieces := parse.pieces + [section]);
      assert PieceLines(section) == [parse.start] + parse.body + [line];
      assert lines + [line] == Lines(parse.pieces) + PieceLines(section);
    }
  }

  lemma {:induction false} ParseLines(lines: seq<string>) returns (parse: Parse)
    requires !BracketingOf(lines).Broken?
    ensures ParseOf(lines, BracketingOf(lines), parse)
  {
    hide MarkerOf;
    if lines == [] {
      parse := Parse([], [], []);
    } else {
      var last := |lines| - 1;
      parse := ParseLines(lines[..last]);
      assert lines == lines[..last] + [lines[last]];
      match BracketingOf(lines[..last])
      case Closed => parse := ParseOutside(lines[..last], lines[last], parse);
      case Open(k) => parse := ParseInside(lines[..last], lines[last], k, parse);
    }
  }

  lemma ExtendPieces(pieces: seq<Piece>, piece: Piece)
    requires AllFlat(pieces) && Flat(piece)
    ensures AllFlat(pieces + [piece]) && Lines(pieces + [piece]) == Lines(pieces) + PieceLines(piece)
  {
    assert (pieces + [piece])[..|pieces|] == pieces;
  }

  /** A template is the lines of flat pieces if and only if its markers are bracketed. */
  lemma BracketedIffPieces(lines: seq<string>)
    ensures BracketingOf(lines).Closed?
        <==> exists pieces :: AllFlat(pieces) && Lines(pieces) == lines
  {
    if BracketingOf(lines).Closed? {
      var parse := ParseLines(lines);
      assert AllFlat(parse.pieces) && Lines(parse.pieces) == lines;
    }
    forall pieces | AllFlat(pieces) && Lines(pieces) == lines
      ensures BracketingOf(lines).Closed?
    {
      PiecesAreBracketed(pieces);
    }
  }

  lemma {:induction false} BodyKeepsBracketing(lines: seq<string>, body: seq<string>)
    requires NoMarkers(body)
    ensures BracketingOf(lines + body) == BracketingOf(lines)
    decreases |body|
  {
    hide MarkerOf;
    if body == [] {
      assert lines + body == lines;
    } else {
      var last := |body| - 1;
      assert lines + body == lines + body[..last] + [body[last]];
      BracketingOneMore(lines + body[..last], body[last]);
      BodyKeepsBracketing(lines, body[..last]);
    }
  }

  lemma PieceIsBracketed(lines: seq<string>, piece: Piece)
    requires BracketingOf(lines).Closed? && Flat(piece)
    ensures BracketingOf(lines + PieceLines(piece)).Closed?
  {
    hide MarkerOf;
    match piece
    case Plain(line) => BracketingOneMore(lines, line);
    case Section(start, _, body, stop) =>
      BracketingOneMore(lines, start);
      BodyKeepsBracketing(lines + [start], body);
      BracketingOneMore(lines + [start] + body, stop);
      assert lines + PieceLines(piece) == lines + [start] + body + [stop];
  }

  lemma {:induction false} PiecesAreBracketed(pieces: seq<Piece>)
    requires AllFlat(pieces)
    ensures BracketingOf(Lines(pieces)).Closed?
  {
    if pieces != [] {
      PiecesAreBracketed(pieces[..|pieces| - 1]);
      PieceIsBracketed(Lines(pieces[..|pieces| - 1]), pieces[|pieces| - 1]);
    }
  }

  // ---------- the text of each piece ----------

  predicate BelongsTo(piece: Piece, service: Service) {
    piece.Section? && ServiceOf(piece.kind) == service
  }

  /** The text of each piece. */
  function Texts(pieces: seq<Piece>, s: Settings, bindings: seq<Binding>): (texts: seq<seq<string>>)
    ensures |texts| == |pieces|
    ensures forall i :: 0 <= i < |pieces| ==> texts[i] == Meaning(pieces[i], s, bindings)
  {
    seq(|pieces|, i requires 0 <= i < |pieces| => Meaning(pieces[i], s, bindings))
  }

  function Flatten(parts: seq<seq<string>>): seq<string> {
    if parts == [] then [] else Flatten(parts[..|parts| - 1]) + parts[|parts| - 1]
  }

  lemma {:induction false} MeaningIsFlat(pieces: seq<Piece>, s: Settings, bindings: seq<Binding>)
    ensures Flatten(Texts(pieces, s, bindings)) == MeaningAll(pieces, s, bindings)
  {
    if pieces != [] {
      var last := |pieces| - 1;
      MeaningIsFlat(pieces[..last], s, bindings);
      assert Texts(pieces, s, bindings)[..last] == Texts(pieces[..last], s, bindings);
    }
  }

  /** The machine's output is made up of the texts of the pieces. */
  lemma OutputIsTexts(pieces: seq<Piece>, s: Settings, bindings: seq<Binding>)
    requires AllFlat(pieces)
    ensures Output(false, Lines(pieces), s, bindings) == Flatten(Texts(pieces, s, bindings))
  {
    MachineMeansSections(pieces, s, bindings);
    MeaningIsFlat(pieces, s, bindings);
  }
}
