/** JSON values whose objects are looked up by name, and the steps a pointer takes through them. */
module JsonValues {
  import opened Wrappers

  /** Numbers matter here only as values to compare. */
  datatype Json =
    | Null | Bool(b: bool) | Num(n: int) | Str(s: string)
    | Arr(items: seq<Json>) | Obj(fields: map<string, Json>)

  predicate Digit(c: char) {
    '0' <= c <= '9'
  }

  /** The value of a decimal numeral without leading zeros. */
  function ParseIndex(s: string): Option<nat> {
    if s == "0" then Some(0)
    else if s == [] || s[0] == '0' then None
    else ParseDigits(s)
  }

  function ParseDigits(s: string): Option<nat> {
    if s == [] then Some(0)
    else if !Digit(s[|s| - 1]) then None
    else
      match ParseDigits(s[..|s| - 1])
      case None => None
      case Some(n) => Some(n * 10 + (s[|s| - 1] - '0') as nat)
  }

  /** The element an array index names. */
  function Element(items: seq<Json>, token: string): Option<Json> {
    match ParseIndex(token)
    case Some(i) => if i < |items| then Some(items[i]) else None
    case None => None
  }

  /******* Numerals *******/

  function DigitChar(n: int): char
    requires 0 <= n < 10
  {
    "0123456789"[n]
  }

  /** The decimal text of n. */
  function Numeral(n: nat): string {
    if n < 10 then [DigitChar(n)] else Numeral(n / 10) + [DigitChar(n % 10)]
  }

  lemma DigitCharOf(c: char)
    requires Digit(c)
    ensures DigitChar((c - '0') as int) == c
  {
  }

  lemma DigitOf(n: int)
    requires 0 <= n < 10
    ensures Digit(DigitChar(n)) && (DigitChar(n) - '0') as int == n
    ensures DigitChar(n) == '0' <==> n == 0
  {
  }

  lemma {:induction false} NumeralParses(n: nat)
    ensures Numeral(n) != [] && ParseDigits(Numeral(n)) == Some(n)
    ensures n > 0 ==> Numeral(n)[0] != '0'
  {
    DigitOf(n % 10);
    if n < 10 {
      assert Numeral(n)[..0] == [];
    } else {
      NumeralParses(n / 10);
      assert Numeral(n)[..|Numeral(n)| - 1] == Numeral(n / 10);
    }
  }

  lemma {:induction false} DigitsAreNumeral(s: string)
    requires s != [] && s[0] != '0' && ParseDigits(s).Some?
    ensures ParseDigits(s).value > 0 && s == Numeral(ParseDigits(s).value)
  {
    var front, last := s[..|s| - 1], s[|s| - 1];
    assert s == front + [last];
    if |s| == 1 {
      assert front == [];
      DigitCharOf(last);
    } else {
      DigitsAreNumeral(front);
      OneMoreDigit(ParseDigits(front).value, last);
    }
  }

  lemma OneMoreDigit(n: nat, last: char)
    requires n > 0 && Digit(last)
    ensures Numeral(n * 10 + (last - '0') as nat) == Numeral(n) + [last]
  {
    DigitCharOf(last);
  }

  /** A token names index n exactly when it is the decimal text of n. */
  lemma IndexIff(s: string, n: nat)
    ensures ParseIndex(s) == Some(n) <==> s == Numeral(n)
  {
    NumeralParses(n);
    if s == Numeral(n) && n == 0 {
      assert s == "0";
    }
    if ParseIndex(s) == Some(n) && s != "0" {
      DigitsAreNumeral(s);
    }
  }
}
