/**
  Base64 as in section 4 of RFC 4648, in one line or wrapped into lines: the encoder of
  scripts/server/export-caddy-managed-cert.sh and the decoder that
  scripts/deploy/render-infra-caddyfile.sh runs on what it is given.
 */
module Base64 {
  import opened Wrappers

  type Byte = b: int | 0 <= b < 256
  type Sextet = v: int | 0 <= v < 64

  function Encode1(v: Sextet): char {
    if v < 26 then 'A' + v as char
    else if v < 52 then 'a' + (v - 26) as char
    else if v < 62 then '0' + (v - 52) as char
    else if v == 62 then '+' else '/'
  }

  function Decode1(c: char): Option<Sextet> {
    if 'A' <= c <= 'Z' then Some(c as int - 'A' as int)
    else if 'a' <= c <= 'z' then Some(c as int - 'a' as int + 26)
    else if '0' <= c <= '9' then Some(c as int - '0' as int + 52)
    else if c == '+' then Some(62) else if c == '/' then Some(63) else None
  }

  function Encode(bytes: seq<Byte>): string {
    if bytes == [] then []
    else if |bytes| == 1 then
      [Encode1(bytes[0] / 4), Encode1(bytes[0] % 4 * 16), '=', '=']
    else if |bytes| == 2 then
      [Encode1(bytes[0] / 4), Encode1(bytes[0] % 4 * 16 + bytes[1] / 16), Encode1(bytes[1] % 16 * 4), '=']
    else
      [Encode1(bytes[0] / 4), Encode1(bytes[0] % 4 * 16 + bytes[1] / 16),
       Encode1(bytes[1] % 16 * 4 + bytes[2] / 64), Encode1(bytes[2] % 64)] + Encode(bytes[3..])
  }

  function First(a: Sextet, b: Sextet): Byte { a as int * 4 + b as int / 16 }
  function Second(b: Sextet, c: Sextet): Byte { b as int % 16 * 16 + c as int / 4 }
  function Third(c: Sextet, d: Sextet): Byte { c as int % 4 * 64 + d as int }

  /** The bytes of four characters; padding may only close the text. */
  function DecodeGroup(text: string): Option<seq<Byte>>
    requires |text| >= 4
  {
    match (Decode1(text[0]), Decode1(text[1]), Decode1(text[2]), Decode1(text[3]))
    case (Some(a), Some(b), Some(c), Some(d)) => Some([First(a, b), Second(b, c), Third(c, d)])
    case (Some(a), Some(b), Some(c), None) =>
      if |text| == 4 && text[3] == '=' then Some([First(a, b), Second(b, c)]) else None
    case (Some(a), Some(b), None, None) =>
      if |text| == 4 && text[2] == '=' && text[3] == '=' then Some([First(a, b)]) else None
    case _ => None
  }

  function Decode(text: string): Option<seq<Byte>> {
    if text == [] then Some([])
    else if |text| < 4 then None
    else
      match (DecodeGroup(text), Decode(text[4..]))
      case (Some(group), Some(rest)) => Some(group + rest)
      case _ => None
  }

  function StripNewlines(text: string): string {
    if text == [] then []
    else (if text[0] == '\n' then [] else [text[0]]) + StripNewlines(text[1..])
  }

  /** Lines of at most `width` characters, each ended by a newline. */
  function Wrap(text: string, width: nat): string
    requires width > 0
    decreases |text|
  {
    if text == [] then []
    else if |text| <= width then text + "\n"
    else text[..width] + "\n" + Wrap(text[width..], width)
  }

  /** `base64 < file | tr -d '\n'`; the encoder wraps after 76 characters. */
  function WriteBase64File(bytes: seq<Byte>): string {
    StripNewlines(Wrap(Encode(bytes), 76))
  }

  /** `base64 --decode`, which ignores newlines. */
  function DecodeText(text: string): Option<seq<Byte>> { Decode(StripNewlines(text)) }

  lemma DecodeEncode1(v: Sextet)
    ensures Decode1(Encode1(v)) == Some(v) && Encode1(v) != '\n' && Encode1(v) != '='
  {
  }

  /** The three bytes of a group, cut into sextets and put together again. */
  lemma Regroup(a: Byte, b: Byte, c: Byte)
    ensures First(a / 4, a % 4 * 16 + b / 16) == a
    ensures Second(a % 4 * 16 + b / 16, b % 16 * 4 + c / 64) == b
    ensures Third(b % 16 * 4 + c / 64, c % 64) == c
  {
  }

  lemma OneByte(a: Byte)
    ensures |Encode([a])| == 4 && DecodeGroup(Encode([a])) == Some([a])
  {
    var text := Encode([a]);
    assert text == [Encode1(a / 4), Encode1(a % 4 * 16), '=', '='];
    DecodeEncode1(a / 4);
    DecodeEncode1(a % 4 * 16);
    assert First(a / 4, a % 4 * 16) == a;
  }

  lemma TwoBytes(a: Byte, b: Byte)
    ensures |Encode([a, b])| == 4 && DecodeGroup(Encode([a, b])) == Some([a, b])
  {
    var text := Encode([a, b]);
    assert text == [Encode1(a / 4), Encode1(a % 4 * 16 + b / 16), Encode1(b % 16 * 4), '='];
    DecodeEncode1(a / 4);
    DecodeEncode1(a % 4 * 16 + b / 16);
    DecodeEncode1(b % 16 * 4);
    Regroup(a, b, 0);
  }

  lemma ThreeBytes(a: Byte, b: Byte, c: Byte, rest: string)
    ensures var group := [Encode1(a / 4), Encode1(a % 4 * 16 + b / 16), Encode1(b % 16 * 4 + c / 64), Encode1(c % 64)];
            DecodeGroup(group + rest) == Some([a, b, c])
  {
    DecodeEncode1(a / 4);
    DecodeEncode1(a % 4 * 16 + b / 16);
    DecodeEncode1(b % 16 * 4 + c / 64);
    DecodeEncode1(c % 64);
    Regroup(a, b, c);
  }

  /** A text of one group decodes to the bytes of that group. */
  lemma LastGroup(text: string, group: seq<Byte>)
    requires |text| == 4 && DecodeGroup(text) == Some(group)
    ensures Decode(text) == Some(group)
  {
    assert text[4..] == [];
    assert Decode([]) == Some([]);
    assert group + [] == group;
  }

  lemma FirstGroup(text: string)
    requires |text| >= 4
    ensures DecodeGroup(text).Some? && Decode(text[4..]).Some? ==>
              Decode(text) == Some(DecodeGroup(text).value + Decode(text[4..]).value)
  {
  }

  lemma {:induction false} DecodeEncode(bytes: seq<Byte>)
    ensures Decode(Encode(bytes)) == Some(bytes)
    decreases |bytes|
  {
    hide DecodeGroup, Encode1;
    if |bytes| == 1 {
      OneByte(bytes[0]);
      assert bytes == [bytes[0]];
      LastGroup(Encode(bytes), bytes);
    } else if |bytes| == 2 {
      TwoBytes(bytes[0], bytes[1]);
      assert bytes == [bytes[0], bytes[1]];
      LastGroup(Encode(bytes), bytes);
    } else if |bytes| > 2 {
      DecodeEncode(bytes[3..]);
      ThreeBytes(bytes[0], bytes[1], bytes[2], Encode(bytes[3..]));
      assert Encode(bytes)[4..] == Encode(bytes[3..]);
      FirstGroup(Encode(bytes));
      assert bytes == [bytes[0], bytes[1], bytes[2]] + bytes[3..];
    }
  }

  lemma {:induction false} EncodeHasNoNewline(bytes: seq<Byte>)
    ensures '\n' !in Encode(bytes)
  {
    if |bytes| > 2 { EncodeHasNoNewline(bytes[3..]); }
  }

  lemma {:induction false} StripConcat(a: string, b: string)
    ensures StripNewlines(a + b) == StripNewlines(a) + StripNewlines(b)
  {
    if a == [] {
      assert a + b == b;
    } else {
      assert (a + b)[1..] == a[1..] + b;
      StripConcat(a[1..], b);
    }
  }

  lemma {:induction false} StripNothing(text: string)
    requires '\n' !in text
    ensures StripNewlines(text) == text
  {
    if text != [] { StripNothing(text[1..]); }
  }

  lemma {:induction false} StripWrap(text: string, width: nat)
    requires width > 0 && '\n' !in text
    ensures StripNewlines(Wrap(text, width)) == text
    decreases |text|
  {
    assert StripNewlines("\n") == "";
    if text == [] {
    } else if |text| <= width {
      StripConcat(text, "\n");
      StripNothing(text);
    } else {
      StripConcat(text[..width] + "\n", Wrap(text[width..], width));
      StripConcat(text[..width], "\n");
      StripNothing(text[..width]);
      StripWrap(text[width..], width);
    }
  }

  /** Every file survives the export and the deploy-side decoder, wrapped at any width or
      not at all; only the empty file gives an empty text. */
  lemma ExportRoundTrip(bytes: seq<Byte>, width: nat)
    requires width > 0
    ensures DecodeText(WriteBase64File(bytes)) == Some(bytes)
    ensures DecodeText(Wrap(Encode(bytes), width)) == Some(bytes)
    ensures WriteBase64File(bytes) == Encode(bytes) && '\n' !in WriteBase64File(bytes)
    ensures WriteBase64File(bytes) == "" <==> bytes == []
  {
    EncodeHasNoNewline(bytes);
    StripWrap(Encode(bytes), 76);
    StripWrap(Encode(bytes), width);
    StripNothing(Encode(bytes));
    DecodeEncode(bytes);
  }

  // ---------- the alphabet and what is rejected ----------

  predicate InAlphabet(c: char) {
    'A' <= c <= 'Z' || 'a' <= c <= 'z' || '0' <= c <= '9' || c == '+' || c == '/'
  }

  lemma {:induction false} DecodedCharacters(text: string)
    requires Decode(text).Some?
    ensures forall i :: 0 <= i < |text| ==> InAlphabet(text[i]) || text[i] == '='
  {
    if text != [] {
      DecodedCharacters(text[4..]);
      GroupCharacters(text);
      forall i | 0 <= i < |text| ensures InAlphabet(text[i]) || text[i] == '=' {
        if i >= 4 { assert text[i] == text[4..][i - 4]; }
      }
    }
  }

  lemma DecodedCharacter(c: char)
    ensures Decode1(c).Some? <==> InAlphabet(c)
  {
  }

  lemma GroupCharacters(text: string)
    requires |text| >= 4 && DecodeGroup(text).Some?
    ensures forall i :: 0 <= i < 4 ==> InAlphabet(text[i]) || text[i] == '='
  {
    hide Decode1, InAlphabet;
    DecodedCharacter(text[0]);
    DecodedCharacter(text[1]);
    DecodedCharacter(text[2]);
    DecodedCharacter(text[3]);
  }

  lemma {:induction false} StrippedKeeps(text: string, c: char)
    requires c in text && c != '\n'
    ensures c in StripNewlines(text)
  {
    if text[0] != c { StrippedKeeps(text[1..], c); }
  }

  /** A text with any other character than those of the alphabet, `=` and the newline is
      rejected as a whole. */
  lemma ForeignCharacterIsRejected(text: string, c: char)
    requires c in text && !InAlphabet(c) && c != '=' && c != '\n'
    ensures DecodeText(text).None?
  {
    StrippedKeeps(text, c);
    if DecodeText(text).Some? { DecodedCharacters(StripNewlines(text)); }
  }

  lemma GroupPadding(text: string, i: nat)
    requires |text| >= 4 && DecodeGroup(text).Some? && i < 4 && text[i] == '='
    ensures |text| == 4 && i >= 2
  {
  }

  lemma FourMore(n: nat)
    ensures (n + 4) % 4 == n % 4
  {
  }

  /** Padding closes a text: what decodes has a length that is a multiple of four, and `=`
      in its last two places only. */
  lemma {:induction false} PaddingCloses(text: string)
    requires Decode(text).Some?
    ensures |text| % 4 == 0 && forall i :: 0 <= i < |text| - 2 ==> text[i] != '='
  {
    hide DecodeGroup;
    if text != [] {
      PaddingCloses(text[4..]);
      FourMore(|text[4..]|);
      forall i | 0 <= i < |text| - 2 ensures text[i] != '=' {
        if i >= 4 {
          assert text[i] == text[4..][i - 4];
        } else if text[i] == '=' {
          GroupPadding(text, i);
        }
      }
    }
  }

  /** The test vectors of section 10 of RFC 4648 for one, two, three and four bytes. */
  lemma TestVectors()
    ensures Encode([102]) == "Zg==" && Encode([102, 111]) == "Zm8="
    ensures Encode([102, 111, 111]) == "Zm9v" && Encode([102, 111, 111, 98]) == "Zm9vYg=="
  {
    var three: seq<Byte> := [102, 111, 111];
    var four: seq<Byte> := [102, 111, 111, 98];
    assert three[3..] == [] && four[3..] == [98];
  }

  /** The corners of table 1 of RFC 4648; within a range the characters follow each other. */
  lemma AlphabetOfTable1(v: Sextet)
    ensures Encode1(0) == 'A' && Encode1(25) == 'Z' && Encode1(26) == 'a' && Encode1(51) == 'z'
    ensures Encode1(52) == '0' && Encode1(61) == '9' && Encode1(62) == '+' && Encode1(63) == '/'
    ensures v !in [25, 51, 61, 62, 63] ==> Encode1(v + 1) as int == Encode1(v) as int + 1
  {
  }

  /** The encoder ends its text with a newline, and breaks a longer one after `width`
      characters. */
  lemma {:induction false} LinesAreWrapped(text: string, width: nat)
    requires width > 0 && text != []
    ensures var out := Wrap(text, width);
            |out| > |text| && out[|out| - 1] == '\n' && (|text| > width ==> out[width] == '\n')
    decreases |text|
  {
    if |text| > width { LinesAreWrapped(text[width..], width); }
  }
}
