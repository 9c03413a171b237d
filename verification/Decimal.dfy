/** Decimal numerals, as an output stream writes them and `stoi` reads them. */
module Decimal {
  import opened Options
  import opened Arith

  const INT_MAX := 2147483647

  predicate IsDigit(c: char) {
    '0' <= c <= '9'
  }

  function DigitChar(d: int): (c: char)
    requires 0 <= d < 10
    ensures IsDigit(c) && DigitValue(c) == d
  {
    ('0' as int + d) as char
  }

  function DigitValue(c: char): (d: nat)
    requires IsDigit(c)
    ensures d < 10
  {
    c as int - '0' as int
  }

  /** The numeral of n, without leading zeros. */
  function Digits(n: nat): (s: string)
    ensures s != [] && forall i :: 0 <= i < |s| ==> IsDigit(s[i])
    ensures |s| == 1 <==> n < 10
    ensures n > 0 ==> s[0] != '0'
  {
    if n < 10 then [DigitChar(n)] else Digits(n / 10) + [DigitChar(n % 10)]
  }

  /** `setfill('0') << setw(2)`: two digits at least, and no leading zero in more. */
  function Padded(n: nat): (s: string)
    ensures |s| >= 2 && forall i :: 0 <= i < |s| ==> IsDigit(s[i])
    ensures |s| > 2 ==> s[0] != '0'
  {
    if n < 10 then ['0'] + Digits(n) else Digits(n)
  }

  /** The number a run of digits stands for, when `acc` has been read before it. */
  function Number(s: string, acc: nat): nat
    requires forall i :: 0 <= i < |s| ==> IsDigit(s[i])
  {
    if s == [] then acc else Number(s[1..], acc * 10 + DigitValue(s[0]))
  }

  lemma {:induction false} NumberSnoc(s: string, c: char, acc: nat)
    requires (forall i :: 0 <= i < |s| ==> IsDigit(s[i])) && IsDigit(c)
    ensures Number(s + [c], acc) == Number(s, acc) * 10 + DigitValue(c)
  {
    if s == [] {
      assert ([] + [c])[1..] == [];
    } else {
      assert (s + [c])[1..] == s[1..] + [c];
      NumberSnoc(s[1..], c, acc * 10 + DigitValue(s[0]));
    }
  }

  lemma {:induction false} NumberOfDigits(n: nat)
    ensures Number(Digits(n), 0) == n
    ensures Number(Padded(n), 0) == n
  {
    if n >= 10 {
      NumberOfDigits(n / 10);
      NumberSnoc(Digits(n / 10), DigitChar(n % 10), 0);
    } else {
      assert Padded(n)[1..] == Digits(n);
      assert Digits(n)[1..] == [];
    }
  }

  predicate IsSpace(c: char) {
    c == ' ' || 9 as char <= c <= 13 as char
  }

  /** Leading white space dropped. */
  function Trimmed(s: string): string {
    if s != [] && IsSpace(s[0]) then Trimmed(s[1..]) else s
  }

  /** The digits at the front. */
  function Leading(s: string): (r: string)
    ensures |r| <= |s| && r == s[..|r|]
    ensures forall i :: 0 <= i < |r| ==> IsDigit(r[i])
    ensures |r| < |s| ==> !IsDigit(s[|r|])
  {
    if s != [] && IsDigit(s[0]) then [s[0]] + Leading(s[1..]) else []
  }

  /** `std::stoi`: None is an exception, for no digits or a value that is no int. Whatever
      follows the digits is ignored. */
  function Stoi(s: string): Option<int> {
    var t := Trimmed(s);
    var minus := t != [] && t[0] == '-';
    var body := if t != [] && (t[0] == '-' || t[0] == '+') then t[1..] else t;
    var digits := Leading(body);
    if digits == [] then None
    else
      var v: int := if minus then -(Number(digits, 0) as int) else Number(digits, 0);
      if -INT_MAX - 1 <= v <= INT_MAX then Some(v) else None
  }

  ghost predicate AllDigits(s: string) {
    forall i :: 0 <= i < |s| ==> IsDigit(s[i])
  }

  ghost predicate AllSpaces(s: string) {
    forall i :: 0 <= i < |s| ==> WhiteSpace(s[i])
  }

  /** The six characters that a reading skips. */
  predicate WhiteSpace(c: char) {
    c in {' ', '\t', '\n', 11 as char, 12 as char, '\r'}
  }

  lemma {:induction false} LeadingDigits(s: string, rest: string)
    requires AllDigits(s) && (rest == "" || !IsDigit(rest[0]))
    ensures Leading(s + rest) == s
  {
    if s == [] {
      assert s + rest == rest;
    } else {
      assert (s + rest)[1..] == s[1..] + rest;
      LeadingDigits(s[1..], rest);
    }
  }

  lemma {:induction false} SpacesTrimmed(spaces: string, rest: string)
    requires AllSpaces(spaces) && (rest == "" || !WhiteSpace(rest[0]))
    ensures Trimmed(spaces + rest) == rest
  {
    if spaces == [] {
      assert spaces + rest == rest;
    } else {
      assert (spaces + rest)[1..] == spaces[1..] + rest;
      SpacesTrimmed(spaces[1..], rest);
    }
  }

  /** Reading theorem: white space, perhaps a sign, and digits are read as the number they stand
      for, whatever follows, if it is an int; without digits there in the text nothing is. */
  lemma StoiReads(spaces: string, sign: string, digits: string, rest: string)
    requires AllSpaces(spaces) && sign in {"", "+", "-"} && AllDigits(digits)
    requires rest == "" || !IsDigit(rest[0])
    requires sign == "" && digits == "" && rest != "" ==> !WhiteSpace(rest[0]) && rest[0] != '+' && rest[0] != '-'
    ensures var v: int := if sign == "-" then -(Number(digits, 0) as int) else Number(digits, 0);
            Stoi(spaces + (sign + (digits + rest)))
            == if digits != "" && -INT_MAX - 1 <= v <= INT_MAX then Some(v) else None
  {
    var body := digits + rest;
    var text := sign + body;
    assert digits != "" ==> body[0] == digits[0];
    assert sign == "" ==> text == body;
    assert sign != "" ==> text[0] == sign[0] && text[1..] == body;
    SpacesTrimmed(spaces, text);
    LeadingDigits(digits, rest);
  }

  /** Reading a numeral gives the number. */
  lemma StoiOfDigits(n: nat)
    requires n <= INT_MAX
    ensures Stoi(Digits(n)) == Some(n)
  {
    var d := Digits(n);
    StoiReads("", "", d, "");
    assert "" + ("" + (d + "")) == d;
    NumberOfDigits(n);
  }
}
