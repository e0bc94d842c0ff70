/** The date, time and frequency fields of an ADIF record (logbook/adif.py). */
module AdifValues {
  import opened Prelude
  import opened Text

  // ---- date and time ----

  /** A UTC time to the second, the proleptic Gregorian calendar of `datetime`. */
  datatype Fields = Time(year: nat, month: nat, day: nat, hour: nat, minute: nat, second: nat)

  predicate Leap(year: nat) {
    year % 4 == 0 && (year % 100 != 0 || year % 400 == 0)
  }

  function DaysIn(year: nat, month: nat): (d: nat) {
    if month == 2 then (if Leap(year) then 29 else 28)
    else if month == 4 || month == 6 || month == 9 || month == 11 then 30
    else 31
  }

  predicate Exists(t: Fields) {
    1 <= t.year <= 9999 && 1 <= t.month <= 12 && 1 <= t.day <= DaysIn(t.year, t.month)
    && t.hour < 24 && t.minute < 60 && t.second < 60
  }

  type Time = t: Fields | Exists(t) witness Time(1970, 1, 1, 0, 0, 0)

  /** `strftime("%Y%m%d")`. */
  function QsoDate(t: Time): string {
    Padded(t.year, 4) + Padded(t.month, 2) + Padded(t.day, 2)
  }

  /** `strftime("%H%M%S")`. */
  function TimeOn(t: Time): string {
    Padded(t.hour, 2) + Padded(t.minute, 2) + Padded(t.second, 2)
  }

  /** `parse_qso_date_time`: None where it raises. */
  function ParseDateTime(qsoDate: string, timeOn: string): Option<Time> {
    var d, t := Strip(qsoDate), Strip(timeOn);
    if |d| != 8 || !AllDigits(d) || (|t| != 4 && |t| != 6) || !AllDigits(t) then None
    else
      var second := if |t| == 6 then Number(t[4..6]) else 0;
      var r := Time(Number(d[..4]), Number(d[4..6]), Number(d[6..8]), Number(t[..2]), Number(t[2..4]), second);
      if Exists(r) then
        var v: Time := r;
        Some(v)
      else None
  }

  lemma TwoDigits(n: nat)
    requires n < 100
    ensures Number(Padded(n, 2)) == n
  {
    assert Pow10(2) == 10 * Pow10(1);
    NumberOfPadded(n, 2);
  }

  lemma FourDigits(n: nat)
    requires n < 10000
    ensures Number(Padded(n, 4)) == n
  {
    assert Pow10(4) == 10 * Pow10(3) && Pow10(3) == 10 * Pow10(2) && Pow10(2) == 10 * Pow10(1);
    NumberOfPadded(n, 4);
  }

  /** Every time comes back to the second. */
  lemma DateTimeRoundTrip(t: Time)
    ensures ParseDateTime(QsoDate(t), TimeOn(t)) == Some(t)
    ensures Trimmed(QsoDate(t)) && Trimmed(TimeOn(t)) && QsoDate(t) != "" && TimeOn(t) != ""
  {
    hide Number, Padded, Strip, IsSpace;
    var d, o := QsoDate(t), TimeOn(t);
    ParsePlain(d);
    ParsePlain(o);
    StripTrimmed(d);
    StripTrimmed(o);
    assert d[..4] == Padded(t.year, 4) && d[4..6] == Padded(t.month, 2) && d[6..8] == Padded(t.day, 2);
    assert o[..2] == Padded(t.hour, 2) && o[2..4] == Padded(t.minute, 2) && o[4..6] == Padded(t.second, 2);
    FourDigits(t.year);
    TwoDigits(t.month);
    TwoDigits(t.day);
    TwoDigits(t.hour);
    TwoDigits(t.minute);
    TwoDigits(t.second);
  }

  // ---- frequency ----

  const MAX_FREQ_HZ := 300_000_000_000

  /** `hz_to_mhz_str`: MHz with six decimals, None when there is nothing to write. */
  function MhzText(hz: Option<int>): Option<string> {
    if hz.None? || hz.value <= 0 then None
    else Some(Digits(hz.value / 1_000_000) + "." + Padded(hz.value % 1_000_000, 6))
  }

  /** n / d to the nearest integer, a tie going to the even neighbour. */
  function RoundRatio(n: nat, d: nat): (r: nat)
    requires d > 0
  {
    var q, rem := n / d, n % d;
    if 2 * rem < d || (2 * rem == d && q % 2 == 0) then q else q + 1
  }

  function Times(a: nat, b: nat): (p: nat) {
    a * b
  }

  /** A run of digits, or nothing at all. */
  function ParsePart(s: string): Option<nat> {
    if s == "" then Some(0) else ParseDigits(s)
  }

  function FirstOf(s: string, c: char, d: char): (k: nat)
    ensures k <= |s|
  {
    var i, j := IndexOf(s, c, 0), IndexOf(s, d, 0);
    if i <= j then i else j
  }

  /** A decimal literal with an optional exponent, as Hz: the exact value of the MHz
      text times a million, rounded. The sign is handled by the caller. */
  function UnsignedMhz(s: string): Option<nat> {
    var e := FirstOf(s, 'e', 'E');
    var mantissa := s[..e];
    var dot := IndexOf(mantissa, '.', 0);
    var whole := mantissa[..dot];
    var frac := if dot < |mantissa| then mantissa[dot + 1..] else "";
    var exponent := if e == |s| then Some(0) else ParseExponent(s[e + 1..]);
    if (whole == "" && frac == "") || ParsePart(whole).None? || ParsePart(frac).None? || exponent.None? then None
    else
      var places := |Without(frac, {'_'})|;
      var n := Times(ParsePart(whole).value, Pow10(places)) + ParsePart(frac).value;
      var shift := exponent.value - places + 6;
      Some(if shift >= 0 then Times(n, Pow10(shift)) else RoundRatio(n, Pow10(-shift)))
  }

  /** A signed run of digits without white space. */
  function ParseExponent(s: string): Option<int> {
    if s != "" && (IsCSpace(s[0]) || IsCSpace(s[|s| - 1])) then None else ParseInt(s)
  }

  /** `mhz_str_to_hz`: None for text that is no number, not finite or out of range. */
  function ParseMhz(s: string): (hz: Option<int>)
    ensures hz.Some? ==> 0 < hz.value < MAX_FREQ_HZ
  {
    var t := CStrip(s);
    if t == "" || t[0] == '-' then None
    else
      match UnsignedMhz(if t[0] == '+' then t[1..] else t)
      case None => None
      case Some(hz) => if 0 < hz < MAX_FREQ_HZ then Some(hz) else None
  }

  /** A frequency comes back exactly when it lies in (0, 300 GHz), and as no frequency
      at all otherwise. */
  lemma FrequencyRoundTrip(hz: int)
    requires 0 < hz
    ensures var s := MhzText(Some(hz)).value;
      && Trimmed(s) && s != ""
      && ParseMhz(s) == if hz < MAX_FREQ_HZ then Some(hz) else None
  {
    hide Number, Padded, Digits, Pow10, Without, DigitRun, ParseDigits, ParseInt, IsSpace, IsCSpace, IndexOf;
    var whole, frac := Digits(hz / 1_000_000), Padded(hz % 1_000_000, 6);
    var s := whole + "." + frac;
    assert forall i :: 0 <= i < |s| ==> IsDigit(s[i]) || s[i] == '.';
    ParsePlain(whole);
    ParsePlain(frac);
    NumberOfDigits(hz / 1_000_000);
    SixDigits(hz % 1_000_000);
    WithoutNothing(frac, {'_'});
    NoIndex(s, 'e');
    NoIndex(s, 'E');
    DotAt(whole, frac);
    assert s[..|s|] == s;
    assert s[..|whole|] == whole && s[|whole| + 1..] == frac;
    OneIsPow10(hz / 1_000_000 * 1_000_000 + hz % 1_000_000);
    assert UnsignedMhz(s) == Some(hz);
    assert s[0] == whole[0] && s[|s| - 1] == frac[|frac| - 1];
    DigitsAreNotSpace(s[0]);
    DigitsAreNotSpace(s[|s| - 1]);
  }

  lemma OneIsPow10(n: nat)
    ensures Times(n, Pow10(0)) == n
  {}

  lemma DigitsAreNotSpace(c: char)
    requires IsDigit(c)
    ensures !IsSpace(c) && !IsCSpace(c) && c != '+' && c != '-'
  {}

  lemma SixDigits(n: nat)
    requires n < 1_000_000
    ensures Number(Padded(n, 6)) == n
    ensures forall a: nat :: Times(a, Pow10(6)) == a * 1_000_000
  {
    assert Pow10(6) == 10 * Pow10(5) && Pow10(5) == 10 * Pow10(4) && Pow10(4) == 10 * Pow10(3);
    assert Pow10(3) == 10 * Pow10(2) && Pow10(2) == 10 * Pow10(1);
    NumberOfPadded(n, 6);
  }

  lemma NoIndex(s: string, c: char)
    requires c !in s
    ensures IndexOf(s, c, 0) == |s|
  {}

  lemma DotAt(whole: string, frac: string)
    requires '.' !in whole
    ensures IndexOf(whole + "." + frac, '.', 0) == |whole|
  {
    var s := whole + "." + frac;
    assert s[|whole|] == '.';
    assert forall k :: 0 <= k < |whole| ==> s[k] == whole[k];
  }
}
