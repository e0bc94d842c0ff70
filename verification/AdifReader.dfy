/** Reading what other programs write: tags in any case, padded, with types, and short
    times (logbook/adif.py). */
module AdifReader {
  import opened Prelude
  import opened Text
  import opened Utf8
  import opened AdifModes
  import opened AdifValues
  import opened AdifCodec
  import opened AdifRoundTrip

  // ---- one tag in any spelling ----

  /** Text that may stand inside a tag. */
  predicate Inside(s: string) {
    IsAscii(s) && '>' !in s
  }

  /** A way to write the tag: in any case, with white space around it. */
  predicate Spells(text: string, tag: string) {
    Inside(text) && ':' !in text && Upper(Strip(text)) == tag
  }

  /** A way to write a length: anything `int` reads as it. */
  predicate Measures(text: string, n: nat) {
    Inside(text) && ':' !in text && ParseInt(text) == Some(n)
  }

  /** What may follow the length: nothing, or a colon and a data type. */
  predicate TypePart(text: string) {
    Inside(text) && (text == "" || text[0] == ':')
  }

  lemma FirstColon(a: string, rest: string)
    requires ':' !in a && (rest == "" || rest[0] == ':')
    ensures IndexOf(a + rest, ':', 0) == |a|
  {
    var s := a + rest;
    assert forall i :: 0 <= i < |a| ==> s[i] == a[i];
    assert rest != "" ==> s[|a|] == ':';
  }

  lemma {:induction false} IndexFrom(s: string, c: char, i: nat)
    requires i <= |s|
    ensures IndexOf(s, c, i) == i + IndexOf(s[i..], c, 0)
  {
    var k := IndexOf(s, c, i);
    var j := IndexOf(s[i..], c, 0);
    assert forall m :: i <= m < |s| ==> s[m] == s[i..][m - i];
    assert k < |s| ==> s[i..][k - i] == c;
    assert i + j < |s| ==> s[i + j] == c;
  }

  /** The text of a tag, however it is spelt, means its upper-case name and its length. */
  lemma ClassifySpelt(text: string, tag: string, length: string, n: nat, kind: string)
    requires Spells(text, tag) && Measures(length, n) && TypePart(kind) && tag != "EOH" && tag != "EOR"
    ensures Classify(text + ":" + length + kind) == Value(tag, n)
  {
    hide Upper, Strip, ParseInt, IndexOf, IsAscii;
    var block, rest := text + ":" + length + kind, ":" + length + kind;
    assert block == text + rest;
    FirstColon(text, rest);
    var c := |text|;
    assert block[..c] == text && block[c + 1..] == length + kind;
    IndexFrom(block, ':', c + 1);
    FirstColon(length, kind);
    assert block[c + 1..c + 1 + |length|] == length;
  }

  lemma InsideConcat(a: string, b: string)
    requires Inside(a) && Inside(b)
    ensures Inside(a + b)
  {}

  /** Main result. A field in any spelling is read as its tag and its value, whatever bytes
      the value holds. */
  lemma TokensSpelt(text: string, tag: string, length: string, kind: string, value: string, rest: seq<byte>)
    requires Spells(text, tag) && Measures(length, |Encode(value)|) && TypePart(kind) && tag != "EOH" && tag != "EOR"
    ensures Tokens(Encode("<" + (text + ":" + length + kind) + ">" + value) + rest)
      == [Token(tag, value)] + Tokens(rest)
  {
    hide Encode, Decode, Classify, Tokens, TokensAfter, Upper, Strip, ParseInt, IsAscii;
    var v := Encode(value);
    var block := text + ":" + length + kind;
    BlockInside(text, length, kind);
    ClassifySpelt(text, tag, length, |v|, kind);
    EncodeConcat("<" + block + ">", value);
    Associate(Encode("<" + block + ">"), v, rest);
    TokensBlock(block, v + rest);
    ValueTaken(tag, v, rest);
    RoundTrip(value);
  }

  lemma BlockInside(text: string, length: string, kind: string)
    requires Inside(text) && Inside(length) && Inside(kind)
    ensures Inside(text + ":" + length + kind)
  {
    hide Inside;
    ColonInside();
    InsideConcat(text, ":");
    InsideConcat(text + ":", length);
    InsideConcat(text + ":" + length, kind);
  }

  lemma ColonInside()
    ensures Inside(":")
  {}

  /** Main result. An end marker in any spelling is one, even with a length behind it. */
  lemma TokensEndSpelt(text: string, tag: string, kind: string, rest: seq<byte>)
    requires (tag == "EOR" || tag == "EOH") && Spells(text, tag) && TypePart(kind)
    ensures Tokens(Encode("<" + (text + kind) + ">") + rest) == [Token(tag, "")] + Tokens(rest)
  {
    hide Encode, Tokens, Upper, Strip, IndexOf, IsAscii;
    FirstColon(text, kind);
    assert (text + kind)[..|text|] == text;
    InsideConcat(text, kind);
    TokensBlock(text + kind, rest);
  }

  /** A tag without a length, or whose length is no number or negative, is passed over. */
  lemma MalformedSkipped(text: string, length: Option<string>, kind: string, rest: seq<byte>)
    requires Inside(text) && ':' !in text && Upper(Strip(text)) !in {"EOR", "EOH"}
    requires length.Some? ==>
      && Inside(length.value) && ':' !in length.value && TypePart(kind)
      && (ParseInt(length.value).Some? ==> ParseInt(length.value).value < 0)
    ensures var block := if length.None? then text else text + ":" + length.value + kind;
      Tokens(Encode("<" + block + ">") + rest) == Tokens(rest)
  {
    hide Encode, Tokens, Upper, Strip, IndexOf, IsAscii, ParseInt;
    if length.None? {
      FirstColon(text, "");
      assert text + "" == text && text[..|text|] == text;
      TokensBlock(text, rest);
    } else {
      var d := length.value;
      var block, tail := text + ":" + d + kind, ":" + d + kind;
      assert block == text + tail;
      FirstColon(text, tail);
      assert block[..|text|] == text && block[|text| + 1..] == d + kind;
      IndexFrom(block, ':', |text| + 1);
      FirstColon(d, kind);
      assert block[|text| + 1..|text| + 1 + |d|] == d;
      BlockInside(text, d, kind);
      TokensBlock(block, rest);
    }
  }

  /** A last record without its end marker is read like one with it. */
  lemma {:induction false} UnterminatedRecord(parts: seq<(string, string)>, r: Record)
    requires GoodTags(parts) && Put(r, parts) != map[]
    ensures LineTokens(parts) != []
    ensures Records(LineTokens(parts)[..|LineTokens(parts)| - 1], r) == Records(LineTokens(parts), r)
    decreases |parts|
  {
    var ts := LineTokens(parts);
    if parts == [] {
      assert ts[..|ts| - 1] == [] && ts[1..] == [];
      assert [r] + Records([], map[]) == [r];
    } else if parts[0].1 == "" {
      UnterminatedRecord(parts[1..], r);
    } else {
      NotAnEnd(parts[0].0);
      UnterminatedRecord(parts[1..], r[parts[0].0 := parts[0].1]);
      var rest := LineTokens(parts[1..]);
      assert ts[..|ts| - 1][1..] == rest[..|rest| - 1] && ts[1..] == rest;
    }
  }

  // ---- a whole file in any spelling ----

  /** How a program spells each tag and which data type it adds. */
  datatype Style = Style(spell: string -> string, length: nat -> string, kind: string -> string, gap: string)
  {
    ghost predicate Valid() {
      && (forall tag :: TagName(tag) || tag == "EOR" ==> Spells(spell(tag), tag) && TypePart(kind(tag)))
      && (forall n: nat :: Measures(length(n), n))
      && '<' !in gap
    }

    function Field(tag: string, value: string): string {
      "<" + (spell(tag) + ":" + length(|Encode(value)|) + kind(tag)) + ">" + value
    }

    /** A record: its non-empty fields, and the end marker. */
    function Line(parts: seq<(string, string)>): string {
      if parts == [] then "<" + (spell("EOR") + kind("EOR")) + ">" + gap
      else if parts[0].1 == "" then Line(parts[1..])
      else Field(parts[0].0, parts[0].1) + gap + Line(parts[1..])
    }

    /** The records of a log. */
    function Lines(qsos: seq<Qso>, s: Station, t: Tables): string {
      if qsos == [] then "" else Line(Parts(qsos[0], s, t)) + Lines(qsos[1..], s, t)
    }
  }

  lemma GapSkipped(gap: string, rest: seq<byte>)
    requires '<' !in gap
    ensures Tokens(Encode(gap) + rest) == Tokens(rest)
  {
    AsciiByteIsChar(gap, '<');
    TokensPass(Encode(gap), rest);
  }

  lemma {:induction false} TokensSpeltLine(y: Style, parts: seq<(string, string)>, rest: seq<byte>)
    requires y.Valid() && GoodTags(parts)
    ensures Tokens(Encode(y.Line(parts)) + rest) == LineTokens(parts) + Tokens(rest)
  {
    hide Tokens, Encode, TagName, Style.Field, Spells, Measures, TypePart;
    if parts == [] {
      var end := "<" + (y.spell("EOR") + y.kind("EOR")) + ">";
      EncodeConcat(end, y.gap);
      Associate(Encode(end), Encode(y.gap), rest);
      TokensEndSpelt(y.spell("EOR"), "EOR", y.kind("EOR"), Encode(y.gap) + rest);
      GapSkipped(y.gap, rest);
    } else {
      TokensSpeltLine(y, parts[1..], rest);
      if parts[0].1 != "" {
        assert TagName(parts[0].0);
        SpeltStep(y, parts[0].0, parts[0].1, y.Line(parts[1..]), LineTokens(parts[1..]), rest);
      }
    }
  }

  lemma SpeltStep(y: Style, tag: string, value: string, more: string, others: seq<Token>, rest: seq<byte>)
    requires y.Valid() && TagName(tag) && Tokens(Encode(more) + rest) == others + Tokens(rest)
    ensures Tokens(Encode(y.Field(tag, value) + y.gap + more) + rest) == ([Token(tag, value)] + others) + Tokens(rest)
  {
    hide Tokens, Encode, TagName, Spells, Measures, TypePart;
    NotAnEnd(tag);
    var f := y.Field(tag, value);
    PieceBytes(f, y.gap, more, rest);
    TokensSpelt(y.spell(tag), tag, y.length(|Encode(value)|), y.kind(tag), value,
                Encode(y.gap) + (Encode(more) + rest));
    GapSkipped(y.gap, Encode(more) + rest);
    Associate([Token(tag, value)], others, Tokens(rest));
  }

  lemma PieceBytes(f: string, gap: string, more: string, rest: seq<byte>)
    ensures Encode(f + gap + more) + rest == Encode(f) + (Encode(gap) + (Encode(more) + rest))
  {
    hide Encode;
    EncodeConcat(f + gap, more);
    EncodeConcat(f, gap);
    Associate(Encode(f) + Encode(gap), Encode(more), rest);
    Associate(Encode(f), Encode(gap), Encode(more) + rest);
  }

  lemma {:induction false} SpeltLinesRead(y: Style, qsos: seq<Qso>, s: Station, t: Tables)
    requires y.Valid()
    ensures BuildAll(Records(Tokens(Encode(y.Lines(qsos, s, t))), map[]), t) == NormalAll(qsos, t)
  {
    hide Encode, Tokens, Style.Line, Records, Put, GoodTags, Parts, Normal, BuildQso, Style.Valid, Strip;
    if qsos == [] {
      NothingRead();
      NoRecords();
    } else {
      var parts, more := Parts(qsos[0], s, t), y.Lines(qsos[1..], s, t);
      PartsTagged(qsos[0], s, t);
      EncodeConcat(y.Line(parts), more);
      TokensSpeltLine(y, parts, Encode(more));
      RecordsLine(parts, map[], Tokens(Encode(more)));
      BuildNormal(qsos[0], s, t);
      SpeltLinesRead(y, qsos[1..], s, t);
    }
  }

  lemma NoRecords()
    ensures Records([], map[]) == []
  {}

  lemma {:induction false} LineStarts(y: Style, parts: seq<(string, string)>)
    ensures y.Line(parts) != "" && y.Line(parts)[0] == '<'
  {
    hide Encode;
    if parts != [] && parts[0].1 == "" {
      LineStarts(y, parts[1..]);
    }
  }

  /** Main result. Without a header too. */
  lemma HeaderlessImport(y: Style, qsos: seq<Qso>, s: Station, t: Tables)
    requires y.Valid()
    ensures Import(Encode(y.Lines(qsos, s, t)), t) == NormalAll(qsos, t)
  {
    hide Encode, Tokens, Records, BuildAll, Style.Line, Style.Valid, NormalAll, Parts, FindMark;
    SpeltLinesRead(y, qsos, s, t);
    var lines := y.Lines(qsos, s, t);
    if qsos == [] {
      NothingEncoded();
    } else {
      LineStarts(y, Parts(qsos[0], s, t));
      TagFirst(lines);
    }
  }

  /** Nor does white space in front matter. */
  lemma BlankLead(lead: string, data: seq<byte>, t: Tables)
    requires StartsWithTag(data) && forall i :: 0 <= i < |lead| ==> lead[i] == ' ' || 9 <= lead[i] as int <= 13
    ensures Import(Encode(lead) + data, t) == Import(data, t)
  {
    hide Encode, Tokens, Records, BuildAll, FindMark;
    BlankFirst(lead, data);
    GapSkipped(lead, data);
  }

  lemma {:induction false} BlankFirst(lead: string, data: seq<byte>)
    requires StartsWithTag(data) && forall i :: 0 <= i < |lead| ==> lead[i] == ' ' || 9 <= lead[i] as int <= 13
    ensures StartsWithTag(Encode(lead) + data)
  {
    hide EncodeChar, StartsWithTag;
    if lead == "" {
      assert Encode(lead) + data == data;
    } else {
      BlankFirst(lead[1..], data);
      assert Encode(lead) + data == [lead[0] as int] + (Encode(lead[1..]) + data);
      BlankThenTag(lead[0] as int, Encode(lead[1..]) + data);
    }
  }

  lemma BlankThenTag(b: byte, data: seq<byte>)
    requires (b == 32 || 9 <= b <= 13) && StartsWithTag(data)
    ensures StartsWithTag([b] + data)
  {
    assert ([b] + data)[1..] == data;
  }

  lemma NothingEncoded()
    ensures Encode("") == [] && Body([]) == []
  {}

  lemma TagFirst(s: string)
    requires s != "" && s[0] == '<'
    ensures StartsWithTag(Encode(s))
  {}

  /** The header's end marker in any case. */
  predicate EndsHeader(mark: string) {
    |mark| == 3 && Upper(mark) == "EOH"
  }

  lemma MarkSpelt(mark: string, rest: seq<byte>)
    requires EndsHeader(mark)
    ensures var m := Encode("<" + mark + ">"); |m| == 5 && MarkAt(m + rest, 0) && m[0] == LT
  {
    hide Encode;
    var text := "<" + mark + ">";
    MarkLetters(mark);
    EncodeAscii(text);
    var m := Encode(text);
    assert text[0] == '<' && text[1] == mark[0] && text[2] == mark[1] && text[3] == mark[2] && text[4] == '>';
    assert forall i :: 0 <= i < 5 ==> (m + rest)[i] == m[i];
  }

  lemma MarkLetters(mark: string)
    requires EndsHeader(mark)
    ensures mark[0] in {'E', 'e'} && mark[1] in {'O', 'o'} && mark[2] in {'H', 'h'}
  {
    assert Upper(mark)[0] == 'E' && Upper(mark)[1] == 'O' && Upper(mark)[2] == 'H';
  }

  lemma BodyAfterMark(head: seq<byte>, mark: seq<byte>, tail: seq<byte>)
    requires !HasMark(head) && |mark| == 5 && MarkAt(mark + tail, 0) && !StartsWithTag(head + (mark + tail))
    ensures Body(head + (mark + tail)) == tail
  {
    var data := head + (mark + tail);
    assert forall i :: 0 <= i < 5 ==> data[|head| + i] == (mark + tail)[i];
    assert MarkAt(data, |head|);
    forall i | 0 <= i < |head| ensures !MarkAt(data, i) {
      assert i + 5 <= |head| ==> MarkAt(data, i) == MarkAt(head, i);
    }
    FindMarkAt(data, |head|);
    assert data[|head| + 5..] == tail;
  }

  /** Main result. A log written by any program that spells its tags in any way, behind any
      header text that holds no marker, is imported in order and in normal form. */
  lemma ForeignImport(y: Style, head: string, mark: string, gap: string, qsos: seq<Qso>, s: Station, t: Tables)
    requires y.Valid() && EndsHeader(mark) && '<' !in gap && !HasMark(Encode(head))
    requires head != "" && !StartsWithTag(Encode(head + ("<" + mark + ">" + (gap + y.Lines(qsos, s, t)))))
    ensures Import(Encode(head + ("<" + mark + ">" + (gap + y.Lines(qsos, s, t)))), t) == NormalAll(qsos, t)
  {
    hide Encode, Tokens, Records, BuildAll, StartsWithTag, Style.Lines, Style.Valid, NormalAll, HasMark, EndsHeader,
      Body;
    var lines, m := y.Lines(qsos, s, t), "<" + mark + ">";
    EncodeConcat(head, m + (gap + lines));
    EncodeConcat(m, gap + lines);
    EncodeConcat(gap, lines);
    var tail := Encode(gap + lines);
    MarkSpelt(mark, tail);
    BodyAfterMark(Encode(head), Encode(m), tail);
    GapSkipped(gap, Encode(lines));
    SpeltLinesRead(y, qsos, s, t);
  }

  // ---- values in any spelling ----

  /** The fields that are read as plain text. */
  const PLAIN_TAGS := {
    "QSO_DATE", "TIME_ON", "MODE", "SUBMODE", "FREQ", "RST_SENT", "RST_RCVD", "NAME", "QTH", "GRIDSQUARE", "COMMENT"}

  /** Two records differ at most in the case of the callsign, band and direction, and in the
      white space around values. */
  ghost predicate Alike(r: Record, q: Record) {
    && (forall tag :: tag in {"CALL", "APP_OPENSSTV_DIRECTION"} ==>
          Upper(Strip(Get(r, tag, "TX"))) == Upper(Strip(Get(q, tag, "TX"))) && (tag in r <==> tag in q))
    && Lower(Strip(Get(r, "BAND", ""))) == Lower(Strip(Get(q, "BAND", "")))
    && (forall tag :: tag in PLAIN_TAGS ==> Strip(Get(r, tag, "")) == Strip(Get(q, tag, "")))
  }

  /** Case and white space of the values do not matter. */
  lemma SpellingIndifferent(r: Record, q: Record, t: Tables)
    requires Alike(r, q)
    ensures BuildQso(r, t) == BuildQso(q, t)
  {
    hide Strip, Upper, Lower, Canonical, Band, BandName, ParseMhz, ParseDateTime;
    assert Get(r, "CALL", "TX") == Get(r, "CALL", "") || "CALL" !in r;
  }

  lemma DateParts(t: Time)
    ensures var d := QsoDate(t);
      |d| == 8 && AllDigits(d) && Trimmed(d)
      && Number(d[..4]) == t.year && Number(d[4..6]) == t.month && Number(d[6..8]) == t.day
  {
    hide Number, Padded, IsSpace;
    var d := QsoDate(t);
    ParsePlain(d);
    assert d[..4] == Padded(t.year, 4) && d[4..6] == Padded(t.month, 2) && d[6..8] == Padded(t.day, 2);
    FourDigits(t.year);
    TwoDigits(t.month);
    TwoDigits(t.day);
  }

  lemma TimeParts(t: Time)
    ensures |TimeOn(t)| == 6
    ensures var o := TimeOn(t)[..4];
      |o| == 4 && AllDigits(o) && Trimmed(o) && Number(o[..2]) == t.hour && Number(o[2..4]) == t.minute
  {
    hide Number, Padded, IsSpace;
    var o := TimeOn(t)[..4];
    ParsePlain(o);
    assert o[..2] == Padded(t.hour, 2) && o[2..4] == Padded(t.minute, 2);
    TwoDigits(t.hour);
    TwoDigits(t.minute);
  }

  /** A time without seconds is read as second 0. */
  lemma ShortTime(t: Time)
    ensures var minute: Time := t.(second := 0); ParseDateTime(QsoDate(t), TimeOn(t)[..4]) == Some(minute)
  {
    hide Number, Strip, QsoDate, TimeOn, DaysIn;
    DateParts(t);
    TimeParts(t);
    var d, o := QsoDate(t), TimeOn(t)[..4];
    StripTrimmed(d);
    StripTrimmed(o);
  }

  // ---- a common spelling ----

  lemma {:induction false} UpperOfLower(s: string)
    requires Upper(s) == s && IsAscii(s)
    ensures Upper(Lower(s)) == s && IsAscii(Lower(s))
  {
    forall i | 0 <= i < |s| ensures UpperChar(LowerChar(s[i])) == s[i] {
      assert Upper(s)[i] == s[i];
    }
  }

  /** Lower-case tags with plain lengths, as many loggers write them, are such a style. */
  lemma LowerCaseIsValid()
    ensures Style(tag => Lower(tag), (n: nat) => Digits(n), _ => "", "\n").Valid()
  {
    hide Digits, ParseInt, Strip, Lower, Upper;
    forall tag | TagName(tag) || tag == "EOR" ensures Spells(Lower(tag), tag) {
      LowerSpells(tag);
    }
    forall n: nat ensures Measures(Digits(n), n) {
      ParsePlain(Digits(n));
      NumberOfDigits(n);
    }
  }

  lemma LowerSpells(tag: string)
    requires TagName(tag) || tag == "EOR"
    ensures Spells(Lower(tag), tag)
  {
    hide Strip;
    assert Upper(tag) == tag;
    UpperOfLower(tag);
    StripTrimmed(Lower(tag));
  }
}
