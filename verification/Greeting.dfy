/** The greeting text (crates/domain/src/greeting.rs) and how to read a count off it. */
module Greeting {
  import opened Wrappers

  datatype GreetingError = InvalidVisitorCount

  /** A count that has passed `VisitorCount::new`. */
  datatype VisitorCount = VisitorCount(value: nat)

  datatype Greeting = Plain | Numbered(count: VisitorCount)

  function NewVisitorCount(value: nat): Result<VisitorCount, GreetingError> {
    if value == 0 then Failure(InvalidVisitorCount) else Success(VisitorCount(value))
  }

  const BEFORE_COUNT := "Hello visitor. You are the "
  const AFTER_COUNT := "'th visitor to this page"

  function Digit(d: nat): char
    requires d < 10
  {
    '0' + d as char
  }

  /** How an unsigned integer is displayed: in decimal, without leading zeros. */
  function Decimal(n: nat): string {
    if n < 10 then [Digit(n)] else Decimal(n / 10) + [Digit(n % 10)]
  }

  function Message(g: Greeting): string {
    match g
    case Plain => "Hello World"
    case Numbered(count) => BEFORE_COUNT + Decimal(count.value) + AFTER_COUNT
  }

  // ---------- reading the count back ----------

  predicate IsDigit(c: char) { '0' <= c <= '9' }

  function DigitsAtStart(text: string): (n: nat)
    ensures n <= |text| && forall i :: 0 <= i < n ==> IsDigit(text[i])
  {
    if text == [] || !IsDigit(text[0]) then 0 else 1 + DigitsAtStart(text[1..])
  }

  function ParseDecimal(digits: string): nat
    requires forall i :: 0 <= i < |digits| ==> IsDigit(digits[i])
  {
    if digits == [] then 0
    else
      var last := |digits| - 1;
      assert IsDigit(digits[last]);
      10 * ParseDecimal(digits[..last]) + (digits[last] as int - '0' as int)
  }

  /** The number in a numbered message; `None` for any other text. */
  function ReadMessage(text: string): Option<nat> {
    if !(BEFORE_COUNT <= text) then None
    else
      var rest := text[|BEFORE_COUNT|..];
      var n := DigitsAtStart(rest);
      if n > 0 && rest[n..] == AFTER_COUNT then Some(ParseDecimal(rest[..n])) else None
  }

  lemma {:induction false} ParsePrinted(n: nat)
    ensures Decimal(n) != [] && forall i :: 0 <= i < |Decimal(n)| ==> IsDigit(Decimal(n)[i])
    ensures ParseDecimal(Decimal(n)) == n
  {
    if n < 10 {
      assert Decimal(n)[..0] == [];
    } else {
      ParsePrinted(n / 10);
      assert Decimal(n)[..|Decimal(n)| - 1] == Decimal(n / 10);
    }
  }

  lemma {:induction false} DigitsThenStop(digits: string, rest: string)
    requires forall i :: 0 <= i < |digits| ==> IsDigit(digits[i])
    requires rest != [] && !IsDigit(rest[0])
    ensures DigitsAtStart(digits + rest) == |digits|
  {
    if digits == [] {
      assert digits + rest == rest;
    } else {
      assert (digits + rest)[1..] == digits[1..] + rest;
      DigitsThenStop(digits[1..], rest);
    }
  }

  /** The count can be recovered from every numbered message, and never from the plain one. */
  lemma CountIsReadable(g: Greeting)
    ensures ReadMessage(Message(g)) == match g { case Plain => None case Numbered(count) => Some(count.value) }
  {
    hide Decimal, ParseDecimal;
    match g
    case Plain =>
      assert Message(g)[6] == 'W' && BEFORE_COUNT[6] == 'v';
    case Numbered(count) =>
      var digits := Decimal(count.value);
      ParsePrinted(count.value);
      DigitsThenStop(digits, AFTER_COUNT);
      assert Message(g)[..|BEFORE_COUNT|] == BEFORE_COUNT;
      assert Message(g)[|BEFORE_COUNT|..] == digits + AFTER_COUNT;
      assert (digits + AFTER_COUNT)[|digits|..] == AFTER_COUNT;
      assert (digits + AFTER_COUNT)[..|digits|] == digits;
  }

  /** A count is printed without leading zeros. */
  lemma {:induction false} NoLeadingZero(n: nat)
    ensures Decimal(n) != [] && (Decimal(n)[0] == '0' ==> n == 0 && Decimal(n) == "0")
  {
    if n >= 10 { NoLeadingZero(n / 10); }
  }

  /** The wording, at one count and without one. */
  lemma WordingOfMessages()
    ensures Message(Numbered(VisitorCount(42))) == "Hello visitor. You are the 42'th visitor to this page"
    ensures Message(Plain) == "Hello World"
  {
    assert Decimal(42) == "42";
    assert "Hello visitor. You are the " + "42" == "Hello visitor. You are the 42";
  }

  /** Different greetings have different texts. */
  lemma MessagesDiffer(g: Greeting, h: Greeting)
    requires g != h
    ensures Message(g) != Message(h)
  {
    CountIsReadable(g);
    CountIsReadable(h);
  }
}
