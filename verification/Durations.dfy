/** `secs_to_str`: a number of seconds as weeks, days, hours, minutes and seconds. */
module Durations {
  import opened Options
  import opened Arith
  import opened Decimal

  /** C's division truncates. */
  function TruncDiv(a: int, b: int): int
    requires b > 0
  {
    if a >= 0 then a / b else -((-a) / b)
  }

  /** Conversion of a long to a 32-bit int. */
  function ToInt(x: int): (r: int)
    ensures -INT_MAX - 1 <= r <= INT_MAX
    ensures -INT_MAX - 1 <= x <= INT_MAX ==> r == x
  {
    (x + 0x8000_0000) % 0x1_0000_0000 - 0x8000_0000
  }

  /** `to_str(i, 2)`. */
  function ToStr2(i: int): string {
    if i >= 0 then Padded(i) else "-" + Digits(-i)
  }

  const DIVISORS: seq<int> := [604800, 86400, 3600, 60]
  const MARKS: string := "wdhms"

  /** A field is left out when it is zero. */
  function Field(n: nat, mark: char): string {
    if n > 0 then Padded(n) + [mark] else ""
  }

  const WEEK_MAX: int := 604800 * 0x8000_0000

  /** The fields of t in mixed radix. */
  function Weeks(t: nat): nat { t / 604800 }
  function Days(t: nat): nat { t / 86400 % 7 }
  function Hours(t: nat): nat { t / 3600 % 24 }
  function Minutes(t: nat): nat { t / 60 % 60 }
  function Seconds(t: nat): nat { t % 60 }

  function Duration(t: nat): string {
    if t == 0 then "00s"
    else Field(Weeks(t), 'w') + Field(Days(t), 'd') + Field(Hours(t), 'h') + Field(Minutes(t), 'm') + Field(Seconds(t), 's')
  }

  /** The fields add up, each below its radix. */
  lemma FieldsAddUp(t: nat)
    ensures t == Weeks(t) * 604800 + Days(t) * 86400 + Hours(t) * 3600 + Minutes(t) * 60 + Seconds(t)
    ensures Days(t) < 7 && Hours(t) < 24 && Minutes(t) < 60 && Seconds(t) < 60
  {
    assert t / 3600 == t / 60 / 60;
    assert t / 86400 == t / 3600 / 24;
    assert t / 604800 == t / 86400 / 7;
  }

  // ------------------------------------------------------------ reading it back

  function Weight(mark: char): int {
    match mark
    case 'w' => 604800
    case 'd' => 86400
    case 'h' => 3600
    case 'm' => 60
    case _ => 1
  }

  /** Read at least one field, each of two digits or more and a mark, the marks in falling order,
      adding up what the fields are worth: `acc` is the number read in this field so far, `digits`
      how many digits it has, `last` the worth of the last mark. */
  function ReadBack(s: string, acc: nat, digits: nat, last: int, total: int): Option<int> {
    if s == [] then if digits == 0 && last <= 604800 then Some(total) else None
    else if IsDigit(s[0]) then ReadBack(s[1..], acc * 10 + DigitValue(s[0]), digits + 1, last, total)
    else if digits < 2 || s[0] !in {'w', 'd', 'h', 'm', 's'} || Weight(s[0]) >= last then None
    else ReadBack(s[1..], 0, 0, Weight(s[0]), total + acc * Weight(s[0]))
  }

  function TimeOf(s: string): Option<int> {
    ReadBack(s, 0, 0, 604801, 0)
  }

  lemma {:induction false} ReadNumber(s: string, rest: string, acc: nat, digits: nat, last: int, total: int)
    requires forall i :: 0 <= i < |s| ==> IsDigit(s[i])
    ensures ReadBack(s + rest, acc, digits, last, total) == ReadBack(rest, Number(s, acc), digits + |s|, last, total)
  {
    if s == [] {
      assert s + rest == rest;
    } else {
      assert (s + rest)[1..] == s[1..] + rest;
      ReadNumber(s[1..], rest, acc * 10 + DigitValue(s[0]), digits + 1, last, total);
    }
  }

  /** The last mark after a field, which is left out when it is zero. */
  function LastMark(n: nat, mark: char, last: int): int {
    if n > 0 then Weight(mark) else last
  }

  lemma ReadField(n: nat, mark: char, rest: string, last: int, total: int)
    requires mark in {'w', 'd', 'h', 'm', 's'} && Weight(mark) < last
    ensures ReadBack(Field(n, mark) + rest, 0, 0, last, total)
         == ReadBack(rest, 0, 0, LastMark(n, mark, last), total + n * Weight(mark))
  {
    if n > 0 {
      assert Field(n, mark) + rest == Padded(n) + ([mark] + rest);
      ReadNumber(Padded(n), [mark] + rest, 0, 0, last, total);
      NumberOfDigits(n);
      assert ([mark] + rest)[1..] == rest;
    } else {
      assert Field(n, mark) + rest == rest;
    }
  }

  /** Duration theorem. */
  lemma DurationReadsBack(t: nat)
    ensures TimeOf(Duration(t)) == Some(t)
  {
    if t == 0 {
      ReadNumber("00", "s", 0, 0, 604801, 0);
      assert "00" + "s" == "00s" && "00"[1..] == "0" && "0"[1..] == "" && "s"[1..] == "";
    } else {
      FieldsAddUp(t);
      ReadFields(Weeks(t), Days(t), Hours(t), Minutes(t), Seconds(t));
    }
  }

  lemma ReadClock(h: nat, m: nat, s: nat, last: int, total: int)
    requires last >= 86400
    ensures ReadBack(Field(h, 'h') + (Field(m, 'm') + Field(s, 's')), 0, 0, last, total)
         == if h + m + s == 0 && last > 604800 then None else Some(total + h * 3600 + m * 60 + s)
  {
    var afterH := LastMark(h, 'h', last);
    var afterM := LastMark(m, 'm', afterH);
    ReadField(h, 'h', Field(m, 'm') + Field(s, 's'), last, total);
    ReadField(m, 'm', Field(s, 's'), afterH, total + h * 3600);
    ReadField(s, 's', [], afterM, total + h * 3600 + m * 60);
    assert Field(s, 's') + [] == Field(s, 's');
  }

  lemma ReadFields(w: nat, d: nat, h: nat, m: nat, s: nat)
    requires w + d + h + m + s > 0
    ensures TimeOf(Field(w, 'w') + Field(d, 'd') + Field(h, 'h') + Field(m, 'm') + Field(s, 's'))
         == Some(w * 604800 + d * 86400 + h * 3600 + m * 60 + s)
  {
    var clock := Field(h, 'h') + (Field(m, 'm') + Field(s, 's'));
    var afterW := LastMark(w, 'w', 604801);
    FieldsAssoc(Field(w, 'w'), Field(d, 'd'), Field(h, 'h'), Field(m, 'm'), Field(s, 's'));
    ReadField(w, 'w', Field(d, 'd') + clock, 604801, 0);
    ReadField(d, 'd', clock, afterW, w * 604800);
    ReadClock(h, m, s, LastMark(d, 'd', afterW), w * 604800 + d * 86400);
  }

  lemma FieldsAssoc(w: string, d: string, h: string, m: string, s: string)
    ensures w + d + h + m + s == w + (d + (h + (m + s)))
  {
  }

  /** Different times are written differently. */
  lemma DurationInjective(t: nat, u: nat)
    requires Duration(t) == Duration(u)
    ensures t == u
  {
    DurationReadsBack(t);
    DurationReadsBack(u);
  }

  // ---------------------------------------------------------------- the code

  /** What is left of t after the first i fields, and what they are written as. */
  function Rest(t: nat, i: nat): nat
    requires i <= 4
  {
    if i == 0 then t else t % DIVISORS[i - 1]
  }

  function FieldsBefore(t: nat, i: nat): string
    requires i <= 4
  {
    var all := [Field(Weeks(t), 'w'), Field(Days(t), 'd'), Field(Hours(t), 'h'), Field(Minutes(t), 'm')];
    if i == 0 then "" else FieldsBefore(t, i - 1) + all[i - 1]
  }

  /** The i-th quotient is the i-th field. */
  lemma FieldOfRest(t: nat, i: nat)
    requires i < 4
    ensures var q := Rest(t, i) / DIVISORS[i];
            && q == [Weeks(t), Days(t), Hours(t), Minutes(t)][i]
            && Rest(t, i) - q * DIVISORS[i] == Rest(t, i + 1)
  {
    FieldsAddUp(t);
    if i == 1 {
      DivMod(t, 604800, Weeks(t), Days(t) * 86400 + Hours(t) * 3600 + Minutes(t) * 60 + Seconds(t));
      DivMod(t % 604800, 86400, Days(t), Hours(t) * 3600 + Minutes(t) * 60 + Seconds(t));
      DivMod(t, 86400, Weeks(t) * 7 + Days(t), Hours(t) * 3600 + Minutes(t) * 60 + Seconds(t));
    } else if i == 2 {
      DivMod(t, 86400, Weeks(t) * 7 + Days(t), Hours(t) * 3600 + Minutes(t) * 60 + Seconds(t));
      DivMod(t % 86400, 3600, Hours(t), Minutes(t) * 60 + Seconds(t));
      DivMod(t, 3600, (Weeks(t) * 7 + Days(t)) * 24 + Hours(t), Minutes(t) * 60 + Seconds(t));
    } else if i == 3 {
      DivMod(t, 3600, (Weeks(t) * 7 + Days(t)) * 24 + Hours(t), Minutes(t) * 60 + Seconds(t));
      DivMod(t % 3600, 60, Minutes(t), Seconds(t));
    }
  }

  /** One round of the loop over the divisors. */
  method NextField(t: int, i: nat, before: string) returns (rest: int, res: string)
    requires i < 4
    ensures 0 <= t && t / DIVISORS[i] <= INT_MAX ==>
              rest == t - t / DIVISORS[i] * DIVISORS[i] && res == before + Field(t / DIVISORS[i], MARKS[i])
    ensures -60 * 0x8000_0000 <= t < 0 ==> rest == t && res == before
  {
    rest, res := t, before;
    var quotient := ToInt(TruncDiv(t, DIVISORS[i]));
    if quotient > 0 {
      rest := t - quotient * DIVISORS[i];
      res := before + ToStr2(quotient) + [MARKS[i]];
      assert before + Padded(quotient) + [MARKS[i]] == before + (Padded(quotient) + [MARKS[i]]);
    }
  }

  /** `secs_to_str`. */
  method SecsToStr(seconds: int) returns (res: string)
    ensures 0 <= seconds < WEEK_MAX ==> res == Duration(seconds)
    ensures -60 * 0x8000_0000 <= seconds < 0 ==> res == ""
  {
    if seconds == 0 {
      return "00s";
    }
    var t := seconds;
    res := "";
    for i := 0 to 4
      invariant 0 <= seconds < WEEK_MAX ==> t == Rest(seconds, i) && res == FieldsBefore(seconds, i)
      invariant -60 * 0x8000_0000 <= seconds < 0 ==> t == seconds && res == ""
    {
      if 0 <= seconds < WEEK_MAX { FieldOfRest(seconds, i); QuotientFits(seconds, i); }
      t, res := NextField(t, i, res);
    }
    if 0 <= seconds < WEEK_MAX { AllFields(seconds); }
    if t > 0 {
      res := res + ToStr2(ToInt(t)) + [MARKS[4]];
    }
  }

  lemma QuotientFits(t: nat, i: nat)
    requires t < WEEK_MAX && i < 4
    ensures Rest(t, i) / DIVISORS[i] <= INT_MAX
  {
    FieldsAddUp(t);
    FieldOfRest(t, i);
  }

  lemma AllFields(t: nat)
    requires t > 0
    ensures Duration(t) == FieldsBefore(t, 4) + Field(Rest(t, 4), 's')
    ensures Rest(t, 4) < 60
    ensures Rest(t, 4) > 0 ==> Duration(t) == FieldsBefore(t, 4) + Padded(Rest(t, 4)) + ['s']
  {
    var w, d, h, m := Field(Weeks(t), 'w'), Field(Days(t), 'd'), Field(Hours(t), 'h'), Field(Minutes(t), 'm');
    assert FieldsBefore(t, 1) == w;
    assert FieldsBefore(t, 2) == w + d;
    assert FieldsBefore(t, 3) == w + d + h;
    assert FieldsBefore(t, 4) == w + d + h + m;
  }
}
