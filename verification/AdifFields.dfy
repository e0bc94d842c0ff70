/** What the date, time and frequency fields of other programs are read as
    (`parse_qso_date_time` and `mhz_str_to_hz` of logbook/adif.py). */
module AdifFields {
  import opened Prelude
  import opened Text
  import opened AdifValues

  // ---- the calendar ----

  /** Days from a fixed day to the first of the month: years begin in March, so that the
      leap day is the last of its year. */
  function FirstOfMonth(year: int, month: int): int {
    var y := if month <= 2 then year - 1 else year;
    var m := if month <= 2 then month + 9 else month - 3;
    365 * y + y / 4 - y / 100 + y / 400 + (153 * m + 2) / 5
  }

  /** Every month has the days that the Gregorian day count gives it. */
  lemma MonthsAreGregorian(year: nat, month: nat)
    requires 1 <= month <= 12
    ensures DaysIn(year, month) ==
      (if month == 12 then FirstOfMonth(year + 1, 1) else FirstOfMonth(year, month + 1)) - FirstOfMonth(year, month)
  {
    if month == 2 {
      LeapDays(year);
    }
  }

  /** A year has one more day than 365 exactly when it is a leap year. */
  lemma LeapDays(year: int)
    requires year >= 0
    ensures (year / 4 - year / 100 + year / 400) - ((year - 1) / 4 - (year - 1) / 100 + (year - 1) / 400)
         == if Leap(year) then 1 else 0
  {
    Steps(year, 4);
    Steps(year, 100);
    Steps(year, 400);
    Divides(year);
  }

  lemma Steps(n: int, d: int)
    requires d in {4, 100, 400}
    ensures n / d - (n - 1) / d == if n % d == 0 then 1 else 0
  {}

  lemma Divides(year: int)
    ensures (year % 400 == 0 ==> year % 100 == 0) && (year % 100 == 0 ==> year % 4 == 0)
  {}

  /** Digits in the places of a date and a time are that time, if there is such a day and
      second, and no time otherwise; white space around them does not matter. */
  lemma DateIsRead(t: Fields, a: string, b: string, c: string, d: string)
    requires t.year < 10000 && t.month < 100 && t.day < 100 && t.hour < 100 && t.minute < 100 && t.second < 100
    requires Blank(a) && Blank(b) && Blank(c) && Blank(d)
    ensures var date := Padded(t.year, 4) + Padded(t.month, 2) + Padded(t.day, 2);
      var time := Padded(t.hour, 2) + Padded(t.minute, 2) + Padded(t.second, 2);
      match ParseDateTime(a + date + b, c + time + d)
      case Some(r) => r == t
      case None => !Exists(t)
  {
    hide Number, Padded, Strip, IsSpace, Blank;
    var date := Padded(t.year, 4) + Padded(t.month, 2) + Padded(t.day, 2);
    var time := Padded(t.hour, 2) + Padded(t.minute, 2) + Padded(t.second, 2);
    ParsePlain(date);
    ParsePlain(time);
    StripBlank(a, date, b);
    StripBlank(c, time, d);
    assert date[..4] == Padded(t.year, 4) && date[4..6] == Padded(t.month, 2) && date[6..8] == Padded(t.day, 2);
    assert time[..2] == Padded(t.hour, 2) && time[2..4] == Padded(t.minute, 2) && time[4..6] == Padded(t.second, 2);
    FourDigits(t.year);
    TwoDigits(t.month);
    TwoDigits(t.day);
    TwoDigits(t.hour);
    TwoDigits(t.minute);
    TwoDigits(t.second);
  }

  predicate Blank(s: string) {
    forall i :: 0 <= i < |s| ==> IsSpace(s[i])
  }

  lemma {:induction false} StripBlank(a: string, s: string, b: string)
    requires Blank(a) && Blank(b) && Trimmed(s) && s != ""
    ensures Strip(a + s + b) == s
    decreases |a| + |b|
  {
    hide IsSpace;
    LStripBlank(a, s + b);
    assert a + s + b == a + (s + b);
    RStripBlank(s, b);
  }

  lemma {:induction false} LStripBlank(a: string, s: string)
    requires Blank(a) && s != "" && !IsSpace(s[0])
    ensures LStrip(a + s) == s
  {
    hide IsSpace;
    if a == "" {
      assert a + s == s;
    } else {
      assert IsSpace(a[0]);
      assert (a + s)[1..] == a[1..] + s;
      LStripBlank(a[1..], s);
    }
  }

  lemma {:induction false} RStripBlank(s: string, b: string)
    requires Blank(b) && s != "" && !IsSpace(s[|s| - 1])
    ensures RStrip(s + b) == s
  {
    hide IsSpace;
    if b == "" {
      assert s + b == s;
    } else {
      var n := |b| - 1;
      assert IsSpace(b[n]);
      assert (s + b)[..|s + b| - 1] == s + b[..n];
      RStripBlank(s, b[..n]);
    }
  }

  // ---- frequencies ----

  /** The integer nearest to n / d, and on a tie the even one. */
  predicate Nearest(n: nat, d: nat, r: nat) {
    var above: int := 2 * Times(r, d) - 2 * n;
    -(d as int) <= above <= d && (above == d || above == -(d as int) ==> r % 2 == 0)
  }

  /** n times ten to the k, rounded where k is negative. */
  predicate Rounded(n: nat, k: int, r: nat) {
    if k >= 0 then r == Times(n, Pow10(k)) else Nearest(n, Pow10(-k), r)
  }

  lemma RatioIsNearest(n: nat, d: nat)
    requires d > 0
    ensures Nearest(n, d, RoundRatio(n, d))
  {
    var q, rem := n / d, n % d;
    assert n == q * d + rem;
    assert (q + 1) * d == q * d + d;
  }

  lemma {:induction false} NumberConcat(a: string, b: string)
    requires AllDigits(a) && AllDigits(b)
    ensures AllDigits(a + b) && Number(a + b) == Times(Number(a), Pow10(|b|)) + Number(b)
  {
    if b == "" {
      assert a + b == a;
      OneIsPow10(Number(a));
    } else {
      var front := b[..|b| - 1];
      NumberConcat(a, front);
      assert (a + b)[..|a + b| - 1] == a + front;
      TenTimes(Number(a), Pow10(|front|));
    }
  }

  lemma TenTimes(a: nat, p: nat)
    ensures Times(a, 10 * p) == 10 * Times(a, p)
  {}

  /** The ways to write an exponent x: none for 0, or the letter and what `int` reads. */
  predicate ExponentPart(s: string, x: int) {
    if s == "" then x == 0 else s[0] in "eE" && ParseExponent(s[1..]) == Some(x)
  }

  /** A decimal number: digits, a point with more digits, an exponent, perhaps a plus. */
  predicate DecimalText(whole: string, tail: string, frac: string, exp: string, x: int) {
    && AllDigits(whole) && AllDigits(frac) && whole + frac != ""
    && (tail == "." + frac || (tail == "" && frac == "")) && ExponentPart(exp, x)
  }

  /** Main result. Any decimal number of megahertz, however many places and whatever the
      exponent, with white space around it, is read as the nearest hertz, if that is above
      zero and below 300 GHz. */
  lemma DecimalIsRead(a: string, plus: string, whole: string, tail: string, frac: string, exp: string, x: int,
      b: string) returns (r: nat)
    requires plus in {"", "+"} && DecimalText(whole, tail, frac, exp, x)
    requires (exp == "" || !IsCSpace(exp[|exp| - 1])) && CBlank(a) && CBlank(b)
    ensures Rounded(Number(whole + frac), x + 6 - |frac|, r)
    ensures ParseMhz(a + (plus + (whole + tail + exp)) + b) == if 0 < r < MAX_FREQ_HZ then Some(r) else None
  {
    hide Number, Pow10, Without, DigitRun, ParseDigits, ParseInt, IsSpace, IsCSpace, IndexOf, UnsignedMhz, Rounded,
      ExponentPart, CStrip, CBlank;
    var s := whole + tail + exp;
    r := UnsignedIs(whole, tail, frac, exp, x);
    assert plus + s == if plus == "" then s else ['+'] + s;
    FirstIsPlain(whole, tail, frac, exp, x);
    LastIsPlain(whole, tail, frac, exp, x);
    PlusIsPlain();
    CStripBlank(a, plus + s, b);
  }

  lemma PlusIsPlain()
    ensures !IsCSpace('+')
  {}

  predicate CBlank(s: string) {
    forall i :: 0 <= i < |s| ==> IsCSpace(s[i])
  }

  lemma {:induction false} CStripBlank(a: string, s: string, b: string)
    requires CBlank(a) && CBlank(b) && s != "" && !IsCSpace(s[0]) && !IsCSpace(s[|s| - 1])
    ensures CStrip(a + s + b) == s
    decreases |a| + |b|
  {
    hide IsCSpace;
    var t := a + s + b;
    if a != "" {
      assert t[0] == a[0] && t[1..] == a[1..] + s + b;
      CStripBlank(a[1..], s, b);
    } else if b != "" {
      var n := |b| - 1;
      assert t[0] == s[0] && t[|t| - 1] == b[n] && t[..|t| - 1] == a + s + b[..n];
      CStripBlank(a, s, b[..n]);
    } else {
      assert t == s;
    }
  }

  lemma FirstIsPlain(whole: string, tail: string, frac: string, exp: string, x: int)
    requires DecimalText(whole, tail, frac, exp, x)
    ensures var s := whole + tail + exp; s != "" && !IsCSpace(s[0]) && s[0] != '+' && s[0] != '-'
  {
    if whole != "" {
      assert (whole + tail + exp)[0] == whole[0];
    } else {
      assert (whole + tail + exp)[0] == '.';
    }
  }

  lemma LastIsPlain(whole: string, tail: string, frac: string, exp: string, x: int)
    requires DecimalText(whole, tail, frac, exp, x) && (exp == "" || !IsCSpace(exp[|exp| - 1]))
    ensures var s := whole + tail + exp; s != "" && !IsCSpace(s[|s| - 1])
  {
    var s := whole + tail + exp;
    if exp != "" {
      assert s[|s| - 1] == exp[|exp| - 1];
    } else if tail == "" {
      assert s[|s| - 1] == whole[|whole| - 1];
    } else if frac != "" {
      assert s[|s| - 1] == frac[|frac| - 1];
    } else {
      assert s[|s| - 1] == '.';
    }
  }

  lemma PartOf(s: string)
    requires AllDigits(s)
    ensures ParsePart(s) == Some(Number(s)) && Without(s, {'_'}) == s
  {
    if s != "" {
      ParsePlain(s);
    }
    WithoutNothing(s, {'_'});
  }

  /** Where the pieces of the text end. */
  lemma Pieces(whole: string, tail: string, frac: string, exp: string, x: int)
    requires DecimalText(whole, tail, frac, exp, x)
    ensures var s := whole + tail + exp; var e := FirstOf(s, 'e', 'E');
      && e == |whole + tail| && s[..e] == whole + tail && s[e..] == exp
      && IndexOf(whole + tail, '.', 0) == |whole|
  {
    hide ExponentPart;
    var s, k := whole + tail + exp, |whole + tail|;
    assert forall i :: 0 <= i < k ==> s[i] == (whole + tail)[i] && (IsDigit(s[i]) || s[i] == '.');
    if exp != "" {
      assert s[k] == exp[0];
      assert exp[0] in "eE" by { LetterFirst(exp, x); }
    }
    assert forall i :: 0 <= i < |whole| ==> (whole + tail)[i] == whole[i] != '.';
    assert tail != "" ==> (whole + tail)[|whole|] == '.';
  }

  lemma LetterFirst(exp: string, x: int)
    requires ExponentPart(exp, x) && exp != ""
    ensures exp[0] in "eE"
  {}

  lemma UnsignedIs(whole: string, tail: string, frac: string, exp: string, x: int) returns (r: nat)
    requires DecimalText(whole, tail, frac, exp, x)
    ensures UnsignedMhz(whole + tail + exp) == Some(r) && Rounded(Number(whole + frac), x + 6 - |frac|, r)
  {
    hide Number, Pow10, Without, IndexOf, ParsePart, FirstOf, ParseExponent, Nearest;
    Pieces(whole, tail, frac, exp, x);
    PartOf(whole);
    PartOf(frac);
    NumberConcat(whole, frac);
    var s := whole + tail + exp;
    var e := FirstOf(s, 'e', 'E');
    var mantissa := whole + tail;
    assert mantissa[..|whole|] == whole;
    assert (if |whole| < |mantissa| then mantissa[|whole| + 1..] else "") == frac;
    assert exp != "" ==> s[e + 1..] == exp[1..];
    var n, shift := Number(whole + frac), x - |frac| + 6;
    if shift >= 0 {
      r := Times(n, Pow10(shift));
    } else {
      r := RoundRatio(n, Pow10(-shift));
      RatioIsNearest(n, Pow10(-shift));
    }
  }

  // ---- whole numbers ----

  lemma CSpaces(c: char)
    ensures IsCSpace(c) <==> c in " \t\n\r" + [11 as char, 12 as char]
  {}

  /** An integer with a sign or none and white space around it is read as that integer. */
  lemma IntIsRead(a: string, sign: string, digits: string, b: string)
    requires CBlank(a) && CBlank(b) && sign in {"", "+", "-"} && digits != "" && AllDigits(digits)
    ensures var n: int := Number(digits);
      ParseInt(a + (sign + digits) + b) == Some(if sign == "-" then -n else n)
  {
    hide Number, IsCSpace, CStrip, CBlank, Without, DigitRun;
    ParsePlain(digits);
    SignIsPlain();
    DigitsAreNotSpace(digits[0]);
    DigitsAreNotSpace(digits[|digits| - 1]);
    var s := sign + digits;
    assert s[|s| - 1] == digits[|digits| - 1];
    assert if sign == "" then s == digits else s[0] == sign[0] && s[1..] == digits;
    CStripBlank(a, s, b);
  }

  /** The same for an exponent, where white space is not allowed. */
  lemma ExponentIsRead(a: string, sign: string, digits: string, b: string)
    requires CBlank(a) && CBlank(b) && sign in {"", "+", "-"} && digits != "" && AllDigits(digits)
    ensures var n: int := Number(digits);
      ParseExponent(a + (sign + digits) + b)
        == if a == "" && b == "" then Some(if sign == "-" then -n else n) else None
  {
    hide Number, IsCSpace, CStrip, Without, DigitRun, ParseInt;
    IntIsRead(a, sign, digits, b);
    SignIsPlain();
    DigitsAreNotSpace(digits[0]);
    DigitsAreNotSpace(digits[|digits| - 1]);
    var s := a + (sign + digits) + b;
    if b != "" {
      assert s[|s| - 1] == b[|b| - 1];
    } else {
      assert s[|s| - 1] == digits[|digits| - 1];
    }
    assert s[0] == if a != "" then a[0] else if sign != "" then sign[0] else digits[0];
  }

  lemma SignIsPlain()
    ensures !IsCSpace('+') && !IsCSpace('-')
  {}

  /** A single underscore between digits does not matter. */
  lemma UnderscoreIsRead(a: string, b: string)
    requires a != "" && b != "" && AllDigits(a) && AllDigits(b)
    ensures AllDigits(a + b) && ParseDigits(a + "_" + b) == Some(Number(a + b))
  {
    hide Number, Without, DigitRun;
    RunOfTwo(a, b);
    WithoutConcat(a + "_", b, {'_'});
    WithoutConcat(a, "_", {'_'});
    WithoutNothing(a, {'_'});
    WithoutNothing(b, {'_'});
    UnderscoreGoes();
    assert Without(a + "_" + b, {'_'}) == a + b;
  }

  lemma UnderscoreGoes()
    ensures Without("_", {'_'}) == ""
  {}

  lemma RunOfTwo(a: string, b: string)
    requires a != "" && b != "" && AllDigits(a) && AllDigits(b)
    ensures AllDigits(a + b) && DigitRun(a + "_" + b)
  {
    var s := a + "_" + b;
    assert forall i :: 0 <= i < |a| ==> s[i] == a[i];
    assert forall i :: |a| < i < |s| ==> s[i] == b[i - |a| - 1];
    assert s[|a|] == '_' && DigitAt(s, |a| + 1);
  }

  /** Anything with another character in it, or an underscore elsewhere, is no number. */
  lemma NoNumber(s: string, i: nat)
    requires i < |s|
    requires !IsDigit(s[i]) && !(s[i] == '_' && 0 < i && i + 1 < |s| && IsDigit(s[i - 1]) && IsDigit(s[i + 1]))
    ensures ParseDigits(s).None?
  {
    if DigitRun(s) {
      RunNeighbours(s, i);
    }
  }

  lemma RunNeighbours(s: string, i: nat)
    requires DigitRun(s) && i < |s|
    ensures IsDigit(s[i])
            || (s[i] == '_' && 0 < i && i + 1 < |s| && IsDigit(s[i - 1]) && IsDigit(s[i + 1]))
  {
    if i > 0 {
      var before := s[i - 1];
    }
  }

  // ---- days and seconds ----

  /** The days of a month are exactly those of the day count. */
  lemma DatesAreDays(t: Fields)
    requires t.hour < 24 && t.minute < 60 && t.second < 60
    ensures Exists(t) <==>
      && 1 <= t.year <= 9999 && 1 <= t.month <= 12
      && var first := FirstOfMonth(t.year, t.month);
      var next := if t.month == 12 then FirstOfMonth(t.year + 1, 1) else FirstOfMonth(t.year, t.month + 1);
      first <= first + t.day - 1 < next
  {
    if 1 <= t.month <= 12 {
      MonthsAreGregorian(t.year, t.month);
      hide FirstOfMonth, DaysIn;
    }
  }

  /** The times of a day are exactly its 86400 seconds. */
  lemma TimesAreSeconds(t: Time, n: nat)
    requires n < 86400
    ensures var at := t.hour * 3600 + t.minute * 60 + t.second;
      at < 86400 && t.hour == at / 3600 && t.minute == at / 60 % 60 && t.second == at % 60
    ensures Exists(Time(t.year, t.month, t.day, n / 3600, n / 60 % 60, n % 60))
  {}
}
