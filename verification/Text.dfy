/** Python's string operations, as far as the logbook uses them. Case mapping is
    ASCII; white space is everything `str.isspace` accepts. */
module Text {
  import opened Prelude

  predicate IsSpace(c: char) {
    var u := c as int;
    || 9 <= u <= 13 || 28 <= u <= 32 || u == 0x85 || u == 0xA0 || u == 0x1680 || 0x2000 <= u <= 0x200A
    || u == 0x2028 || u == 0x2029 || u == 0x202F || u == 0x205F || u == 0x3000
  }

  predicate IsDigit(c: char) {
    '0' <= c <= '9'
  }

  function UpperChar(c: char): char {
    if 'a' <= c <= 'z' then 'A' + (c - 'a') else c
  }

  function LowerChar(c: char): char {
    if 'A' <= c <= 'Z' then 'a' + (c - 'A') else c
  }

  function Upper(s: string): (r: string)
    ensures |r| == |s|
  {
    seq(|s|, i requires 0 <= i < |s| => UpperChar(s[i]))
  }

  function Lower(s: string): (r: string)
    ensures |r| == |s|
  {
    seq(|s|, i requires 0 <= i < |s| => LowerChar(s[i]))
  }

  function LStrip(s: string): (r: string) {
    if s != "" && IsSpace(s[0]) then LStrip(s[1..]) else s
  }

  function RStrip(s: string): (r: string) {
    if s != "" && IsSpace(s[|s| - 1]) then RStrip(s[..|s| - 1]) else s
  }

  function Strip(s: string): string {
    RStrip(LStrip(s))
  }

  /** No white space at either end. */
  predicate Trimmed(s: string) {
    s == "" || (!IsSpace(s[0]) && !IsSpace(s[|s| - 1]))
  }

  /** s without the characters in `drop`. */
  function Without(s: string, drop: set<char>): (r: string) {
    if s == "" then "" else (if s[0] in drop then "" else [s[0]]) + Without(s[1..], drop)
  }

  // ---- stripping ----

  predicate AllSpace(s: string) {
    forall i :: 0 <= i < |s| ==> IsSpace(s[i])
  }

  /** s is white space around its stripped middle. */
  lemma {:induction false} StripParts(s: string) returns (before: string, after: string)
    ensures s == before + Strip(s) + after && AllSpace(before) && AllSpace(after)
    ensures Trimmed(Strip(s))
  {
    before := LeftPart(s);
    after := RightPart(LStrip(s));
    assert s == before + LStrip(s) == before + (Strip(s) + after);
    if Strip(s) != "" {
      assert Strip(s)[0] == LStrip(s)[0];
    }
  }

  lemma {:induction false} LeftPart(s: string) returns (before: string)
    ensures s == before + LStrip(s) && AllSpace(before)
    ensures LStrip(s) != "" ==> !IsSpace(LStrip(s)[0])
  {
    if s != "" && IsSpace(s[0]) {
      before := LeftPart(s[1..]);
      assert s == [s[0]] + s[1..];
      before := [s[0]] + before;
    } else {
      before := "";
    }
  }

  lemma {:induction false} RightPart(s: string) returns (after: string)
    ensures s == RStrip(s) + after && AllSpace(after)
    ensures RStrip(s) != "" ==> !IsSpace(RStrip(s)[|RStrip(s)| - 1])
  {
    if s != "" && IsSpace(s[|s| - 1]) {
      after := RightPart(s[..|s| - 1]);
      assert s == s[..|s| - 1] + [s[|s| - 1]];
      after := after + [s[|s| - 1]];
    } else {
      after := "";
    }
  }

  lemma StripTrimmed(s: string)
    requires Trimmed(s)
    ensures Strip(s) == s
  {}

  /** White space around a trimmed text is all that stripping removes. */
  lemma {:induction false} StripAround(before: string, s: string, after: string)
    requires AllSpace(before) && AllSpace(after) && Trimmed(s)
    ensures Strip(before + s + after) == s
  {
    hide RStrip;
    var t := before + s + after;
    if s == "" {
      assert AllSpace(t);
      LStripAll(t);
      RStripAfter("", "");
      assert "" + "" == "";
    } else {
      LStripBefore(before, s + after);
      assert t == before + (s + after);
      RStripAfter(s, after);
    }
  }

  lemma {:induction false} LStripAll(s: string)
    requires AllSpace(s)
    ensures LStrip(s) == ""
  {
    if s != "" {
      LStripAll(s[1..]);
    }
  }

  lemma {:induction false} LStripBefore(before: string, s: string)
    requires AllSpace(before) && s != "" && !IsSpace(s[0])
    ensures LStrip(before + s) == s
  {
    if before == "" {
      assert before + s == s;
    } else {
      LStripBefore(before[1..], s);
      assert (before + s)[1..] == before[1..] + s;
    }
  }

  lemma {:induction false} RStripAfter(s: string, after: string)
    requires AllSpace(after) && (s == "" || !IsSpace(s[|s| - 1]))
    ensures RStrip(s + after) == s
  {
    if after == "" {
      assert s + after == s;
    } else {
      RStripAfter(s, after[..|after| - 1]);
      assert (s + after)[..|s + after| - 1] == s + after[..|after| - 1];
    }
  }

  lemma StripIdempotent(s: string)
    ensures Trimmed(Strip(s)) && Strip(Strip(s)) == Strip(s)
  {
    var before, after := StripParts(s);
    StripTrimmed(Strip(s));
  }

  // ---- case ----

  lemma UpperKeeps(s: string)
    ensures Upper(Upper(s)) == Upper(s)
    ensures Trimmed(s) <==> Trimmed(Upper(s))
    ensures Upper(s) == "" <==> s == ""
  {
    assert forall i :: 0 <= i < |s| ==> IsSpace(Upper(s)[i]) == IsSpace(s[i]);
    assert forall i :: 0 <= i < |s| ==> Upper(Upper(s))[i] == Upper(s)[i];
  }

  lemma UpperConcat(s: string, t: string)
    ensures Upper(s + t) == Upper(s) + Upper(t)
  {}

  // ---- dropping characters ----

  lemma {:induction false} WithoutConcat(s: string, t: string, drop: set<char>)
    ensures Without(s + t, drop) == Without(s, drop) + Without(t, drop)
  {
    if s == "" {
      assert s + t == t;
    } else {
      WithoutConcat(s[1..], t, drop);
      assert (s + t)[1..] == s[1..] + t && (s + t)[0] == s[0];
      var head: string := if s[0] in drop then "" else [s[0]];
      assert head + (Without(s[1..], drop) + Without(t, drop)) == (head + Without(s[1..], drop)) + Without(t, drop);
    }
  }

  lemma {:induction false} WithoutFree(s: string, drop: set<char>)
    ensures forall i :: 0 <= i < |Without(s, drop)| ==> Without(s, drop)[i] !in drop && Without(s, drop)[i] in s
  {
    if s != "" {
      WithoutFree(s[1..], drop);
    }
  }

  lemma {:induction false} WithoutNothing(s: string, drop: set<char>)
    requires forall i :: 0 <= i < |s| ==> s[i] !in drop
    ensures Without(s, drop) == s
  {
    if s != "" {
      WithoutNothing(s[1..], drop);
    }
  }

  /** Dropping characters that have no case commutes with upper-casing. */
  lemma {:induction false} WithoutUpper(s: string, drop: set<char>)
    requires forall c :: c in drop ==> !('a' <= c <= 'z') && !('A' <= c <= 'Z')
    ensures Without(Upper(s), drop) == Upper(Without(s, drop))
  {
    if s != "" {
      WithoutUpper(s[1..], drop);
      assert Upper(s)[1..] == Upper(s[1..]);
      UpperConcat(if s[0] in drop then "" else [s[0]], Without(s[1..], drop));
      assert UpperChar(s[0]) in drop <==> s[0] in drop;
    }
  }

  // ---- decimal digits ----

  function DigitChar(d: nat): (c: char)
    requires d < 10
    ensures IsDigit(c)
  {
    '0' + d as char
  }

  function DigitValue(c: char): (d: nat)
    requires IsDigit(c)
    ensures d < 10
  {
    (c - '0') as int
  }

  /** `str(n)`. */
  function Digits(n: nat): (s: string)
    ensures s != "" && AllDigits(s)
  {
    if n < 10 then [DigitChar(n)] else Digits(n / 10) + [DigitChar(n % 10)]
  }

  /** n in exactly `width` digits, leading zeros included. */
  function Padded(n: nat, width: nat): (s: string)
    ensures |s| == width && AllDigits(s)
  {
    if width == 0 then "" else Padded(n / 10, width - 1) + [DigitChar(n % 10)]
  }

  predicate AllDigits(s: string) {
    forall i :: 0 <= i < |s| ==> IsDigit(s[i])
  }

  /** The number a string of digits stands for. */
  function Number(s: string): (n: nat)
    requires AllDigits(s)
  {
    if s == "" then 0 else 10 * Number(s[..|s| - 1]) + DigitValue(s[|s| - 1])
  }

  function Pow10(k: nat): (p: nat)
    ensures p > 0
  {
    if k == 0 then 1 else 10 * Pow10(k - 1)
  }

  lemma {:induction false} NumberOfDigits(n: nat)
    ensures Number(Digits(n)) == n
  {
    if n >= 10 {
      NumberOfDigits(n / 10);
    }
  }

  lemma {:induction false} NumberOfPadded(n: nat, width: nat)
    requires n < Pow10(width)
    ensures Number(Padded(n, width)) == n
  {
    if width > 0 {
      NumberOfPadded(n / 10, width - 1);
    }
  }

  // ---- Python's int() and float() ----

  /** White space that `int` and `float` skip around an ASCII literal. */
  predicate IsCSpace(c: char) {
    c == ' ' || 9 <= c as int <= 13
  }

  function CStrip(s: string): string {
    if s != "" && IsCSpace(s[0]) then CStrip(s[1..])
    else if s != "" && IsCSpace(s[|s| - 1]) then CStrip(s[..|s| - 1])
    else s
  }

  /** A run of digits, single underscores allowed between two digits. */
  predicate DigitRun(s: string) {
    s != "" && IsDigit(s[0])
    && forall i :: 0 <= i < |s| ==> IsDigit(s[i]) || (s[i] == '_' && DigitAt(s, i + 1))
  }

  predicate DigitAt(s: string, i: nat) {
    i < |s| && IsDigit(s[i])
  }

  lemma RunLeavesDigits(s: string)
    requires DigitRun(s)
    ensures AllDigits(Without(s, {'_'}))
  {
    var t := Without(s, {'_'});
    WithoutFree(s, {'_'});
    forall i | 0 <= i < |t| ensures IsDigit(t[i]) {
      var j :| 0 <= j < |s| && s[j] == t[i];
    }
  }

  function ParseDigits(s: string): Option<nat> {
    if !DigitRun(s) then None
    else
      RunLeavesDigits(s);
      Some(Number(Without(s, {'_'})))
  }

  function Negate(n: int): int {
    -n
  }

  /** `int(s)`, None for ValueError. */
  function ParseInt(s: string): Option<int> {
    var t := CStrip(s);
    var signed := t != "" && (t[0] == '+' || t[0] == '-');
    match ParseDigits(if signed then t[1..] else t)
    case None => None
    case Some(n) => Some(if signed && t[0] == '-' then Negate(n) else n)
  }

  lemma {:induction false} ParsePlain(s: string)
    requires s != "" && AllDigits(s)
    ensures ParseDigits(s) == Some(Number(s)) && ParseInt(s) == Some(Number(s))
    ensures Trimmed(s)
  {
    WithoutNothing(s, {'_'});
  }

  /** First position of c at or after i, or |s|. */
  function IndexOf(s: string, c: char, i: nat): (k: nat)
    requires i <= |s|
    ensures i <= k <= |s| && (k < |s| ==> s[k] == c)
    ensures forall j :: i <= j < k ==> s[j] != c
    decreases |s| - i
  {
    if i == |s| || s[i] == c then i else IndexOf(s, c, i + 1)
  }

  // ---- letters ----

  const CAPITALS := "ABCDEFGHIJKLMNOPQRSTUVWXYZ"
  const SMALLS := "abcdefghijklmnopqrstuvwxyz"

  lemma LetterAt(i: nat)
    requires i < 26
    ensures CAPITALS[i] as int == 65 + i && SMALLS[i] as int == 97 + i
  {}

  lemma CaseOfLetter(i: nat)
    requires i < 26
    ensures UpperChar(SMALLS[i]) == UpperChar(CAPITALS[i]) == CAPITALS[i]
    ensures LowerChar(SMALLS[i]) == LowerChar(CAPITALS[i]) == SMALLS[i]
  {
    LetterAt(i);
    hide CAPITALS, SMALLS;
  }

  lemma SmallsAre(c: char)
    ensures c in SMALLS <==> 'a' <= c <= 'z'
  {
    if 'a' <= c <= 'z' {
      LetterAt(c as int - 97);
      assert SMALLS[c as int - 97] == c;
    }
  }

  lemma CapitalsAre(c: char)
    ensures c in CAPITALS <==> 'A' <= c <= 'Z'
  {
    if 'A' <= c <= 'Z' {
      LetterAt(c as int - 65);
      assert CAPITALS[c as int - 65] == c;
    }
  }

  lemma OtherHasNoCase(c: char)
    requires c !in CAPITALS && c !in SMALLS
    ensures UpperChar(c) == LowerChar(c) == c
  {
    SmallsAre(c);
    CapitalsAre(c);
    hide CAPITALS, SMALLS;
  }

  /** Texts that differ only in case have the same upper and the same lower case. */
  lemma CaseFolds(s: string, t: string)
    ensures Upper(s) == Upper(t) <==> Lower(s) == Lower(t)
  {
    if Upper(s) == Upper(t) {
      forall i | 0 <= i < |s| ensures Lower(s)[i] == Lower(t)[i] {
        assert Upper(s)[i] == Upper(t)[i];
      }
    }
    if Lower(s) == Lower(t) {
      forall i | 0 <= i < |s| ensures Upper(s)[i] == Upper(t)[i] {
        assert Lower(s)[i] == Lower(t)[i];
      }
    }
  }
}
