/** What is exported is what is imported. */
module AdifRoundTrip {
  import opened Prelude
  import opened Text
  import opened Utf8
  import opened AdifModes
  import opened AdifValues
  import opened AdifCodec

  // ---- one tag ----

  /** A tag as the writer spells it. */
  predicate TagName(tag: string) {
    tag != "" && tag != "EOH" && tag != "EOR" && forall i :: 0 <= i < |tag| ==> 'A' <= tag[i] <= 'Z' || tag[i] == '_'
  }

  lemma ClassifyField(tag: string, n: nat)
    requires TagName(tag)
    ensures Classify(tag + ":" + Digits(n)) == Value(tag, n)
    ensures Upper(tag) == tag
  {
    hide Digits, ParseInt, Strip, IndexOf;
    var d := Digits(n);
    var block := tag + ":" + d;
    TagIndex(tag, d);
    assert block[..|tag|] == tag && block[|tag| + 1..] == d && block[|tag| + 1..|block|] == d;
    StripTrimmed(tag);
    assert Upper(tag) == tag;
    ParsePlain(d);
    NumberOfDigits(n);
  }

  lemma TagIndex(tag: string, d: string)
    requires TagName(tag) && AllDigits(d)
    ensures IndexOf(tag + ":" + d, ':', 0) == |tag|
    ensures IndexOf(tag + ":" + d, ':', |tag| + 1) == |tag| + 1 + |d|
  {
    hide IndexOf;
    var block := tag + ":" + d;
    assert block[|tag|] == ':';
    assert forall i :: 0 <= i < |tag| ==> block[i] == tag[i];
    assert forall i :: |tag| < i < |block| ==> block[i] == d[i - |tag| - 1];
  }

  lemma ClassifyEnd()
    ensures Classify("EOR") == End("EOR") && Classify("EOH") == End("EOH")
  {
    EndIndex("EOR");
    EndIndex("EOH");
    StripTrimmed("EOR");
    StripTrimmed("EOH");
    assert Upper("EOR") == "EOR" && Upper("EOH") == "EOH";
  }

  lemma EndIndex(block: string)
    requires ':' !in block
    ensures IndexOf(block, ':', 0) == |block| && block[..|block|] == block
  {}

  // ---- finding bytes ----

  lemma {:induction false} FindAt(data: seq<byte>, b: byte, i: nat, k: nat)
    requires i <= k < |data| && data[k] == b && forall j :: i <= j < k ==> data[j] != b
    ensures Find(data, b, i) == k
  {}

  /** Bytes before the next `<` move every later find by their number. */
  lemma FindPass(pre: seq<byte>, data: seq<byte>, b: byte, i: nat)
    requires i <= |data|
    ensures Find(pre + data, b, |pre| + i) == |pre| + Find(data, b, i)
    decreases |data| - i
  {
    if i < |data| && data[i] != b {
      FindPass(pre, data, b, i + 1);
    }
  }

  lemma {:induction false} FindOver(pre: seq<byte>, data: seq<byte>, b: byte, i: nat)
    requires i <= |pre| && b !in pre
    ensures Find(pre + data, b, i) == Find(pre + data, b, |pre|)
    decreases |pre| - i
  {
    if i < |pre| {
      assert (pre + data)[i] == pre[i];
      FindOver(pre, data, b, i + 1);
    }
  }

  lemma TokensPass(pre: seq<byte>, data: seq<byte>)
    requires LT !in pre
    ensures Tokens(pre + data) == Tokens(data)
  {
    hide Classify, Decode, AsciiText, Find, TokensAfter;
    var all := pre + data;
    var lt := Find(data, LT, 0);
    FindOver(pre, data, LT, 0);
    FindPass(pre, data, LT, 0);
    if lt < |data| {
      var gt := Find(data, GT, lt + 1);
      FindPass(pre, data, GT, lt + 1);
      if gt < |data| {
        SlicePass(pre, data, lt, gt);
      }
    }
  }

  lemma SlicePass(pre: seq<byte>, data: seq<byte>, lt: nat, gt: nat)
    requires lt < gt < |data|
    ensures (pre + data)[|pre| + lt + 1..|pre| + gt] == data[lt + 1..gt]
    ensures (pre + data)[|pre| + gt + 1..] == data[gt + 1..]
  {}

  /** The text `<block>` at the front of the data is classified as that block. */
  lemma TokensBlock(block: string, rest: seq<byte>)
    requires IsAscii(block) && '>' !in block
    ensures Tokens(Encode("<" + block + ">") + rest) == TokensAfter(Classify(block), rest)
  {
    hide Classify, TokensAfter, AsciiText, Encode, Find;
    var data := Encode("<" + block + ">") + rest;
    BlockBytes(block, rest);
    AsciiRoundTrip(block);
    FindAt(data, LT, 0, 0);
    FindAt(data, GT, 1, |block| + 1);
  }

  lemma BlockBytes(block: string, rest: seq<byte>)
    requires IsAscii(block) && '>' !in block
    ensures var data := Encode("<" + block + ">") + rest;
      && |data| >= |block| + 2 && data[0] == LT && data[|block| + 1] == GT
      && (forall j :: 1 <= j < |block| + 1 ==> data[j] != GT)
      && data[1..|block| + 1] == Encode(block) && data[|block| + 2..] == rest
  {
    hide Encode;
    var text := "<" + block + ">";
    var head := Encode(text);
    EncodeAscii(text);
    EncodeAscii(block);
    assert forall j :: 0 <= j < |head| ==> (head + rest)[j] == text[j] as int;
    assert forall j :: 1 <= j < |block| + 1 ==> text[j] == block[j - 1];
  }

  lemma TokensField(tag: string, value: string, rest: seq<byte>)
    requires TagName(tag) && value != ""
    ensures Tokens(Encode(Field(tag, value)) + rest) == [Token(tag, value)] + Tokens(rest)
  {
    hide Encode, Decode, Digits, Classify, Tokens, TokensAfter, TagName, Field;
    var v := Encode(value);
    var block := tag + ":" + Digits(|v|);
    BlockIsAscii(tag, Digits(|v|));
    ClassifyField(tag, |v|);
    FieldText(tag, value);
    EncodeConcat("<" + block + ">", value);
    Associate(Encode("<" + block + ">"), v, rest);
    TokensBlock(block, v + rest);
    ValueTaken(tag, v, rest);
    RoundTrip(value);
  }

  lemma FieldText(tag: string, value: string)
    requires TagName(tag) && value != ""
    ensures Field(tag, value) == "<" + (tag + ":" + Digits(|Encode(value)|)) + ">" + value
  {
    hide Encode, Digits;
    assert Upper(tag) == tag;
  }

  lemma ValueTaken(tag: string, v: seq<byte>, rest: seq<byte>)
    ensures TokensAfter(Value(tag, |v|), v + rest) == [Token(tag, Decode(v))] + Tokens(rest)
  {
    hide Tokens, Decode;
    assert (v + rest)[..|v|] == v && (v + rest)[|v|..] == rest;
  }

  lemma Associate<T>(a: seq<T>, b: seq<T>, c: seq<T>)
    ensures (a + b) + c == a + (b + c)
  {}

  lemma BlockIsAscii(tag: string, d: string)
    requires TagName(tag) && AllDigits(d)
    ensures IsAscii(tag + ":" + d) && '>' !in tag + ":" + d
  {
    var block := tag + ":" + d;
    assert forall i :: 0 <= i < |tag| ==> block[i] == tag[i];
    assert forall i :: |tag| < i < |block| ==> block[i] == d[i - |tag| - 1];
  }

  lemma TokensEnd(tag: string, rest: seq<byte>)
    requires tag == "EOR" || tag == "EOH"
    ensures Tokens(Encode("<" + tag + ">") + rest) == [Token(tag, "")] + Tokens(rest)
  {
    hide Tokens, Encode, Classify;
    ClassifyEnd();
    TokensBlock(tag, rest);
  }

  lemma TokensChar(c: char, rest: seq<byte>)
    requires c == ' ' || c == '\n'
    ensures Tokens(Encode([c]) + rest) == Tokens(rest)
  {
    EncodeAscii([c]);
    TokensPass(Encode([c]), rest);
  }

  // ---- one record ----

  ghost predicate GoodTags(parts: seq<(string, string)>) {
    forall i :: 0 <= i < |parts| ==> TagName(parts[i].0)
  }

  /** The tokens a record's line reads back as. */
  function LineTokens(parts: seq<(string, string)>): seq<Token> {
    if parts == [] then [Token("EOR", "")]
    else if parts[0].1 == "" then LineTokens(parts[1..])
    else [Token(parts[0].0, parts[0].1)] + LineTokens(parts[1..])
  }

  lemma {:induction false} TokensLine(parts: seq<(string, string)>, rest: seq<byte>)
    requires GoodTags(parts)
    ensures Tokens(Encode(Line(parts)) + rest) == LineTokens(parts) + Tokens(rest)
  {
    hide Tokens, Encode, Field, TagName;
    if parts == [] {
      TokensEnd("EOR", rest);
      assert "<" + "EOR" + ">" == "<EOR>";
    } else {
      TokensLine(parts[1..], rest);
      if parts[0].1 != "" {
        assert TagName(parts[0].0);
        LineStep(parts[0].0, parts[0].1, Line(parts[1..]), LineTokens(parts[1..]), rest);
      }
    }
  }

  lemma LineStep(tag: string, value: string, more: string, others: seq<Token>, rest: seq<byte>)
    requires TagName(tag) && value != "" && Tokens(Encode(more) + rest) == others + Tokens(rest)
    ensures Tokens(Encode(Field(tag, value) + " " + more) + rest) == ([Token(tag, value)] + others) + Tokens(rest)
  {
    hide Tokens, Encode, Field, TagName;
    FieldBytes(Field(tag, value), more, rest);
    TokensField(tag, value, Encode(" ") + (Encode(more) + rest));
    TokensChar(' ', Encode(more) + rest);
    Associate([Token(tag, value)], others, Tokens(rest));
  }

  lemma FieldBytes(f: string, more: string, rest: seq<byte>)
    ensures Encode(f + " " + more) + rest == Encode(f) + (Encode(" ") + (Encode(more) + rest))
  {
    hide Encode;
    EncodeConcat(f + " ", more);
    EncodeConcat(f, " ");
    Associate(Encode(f) + Encode(" "), Encode(more), rest);
    Associate(Encode(f), Encode(" "), Encode(more) + rest);
  }

  /** The dictionary a record's fields build. */
  function Put(r: Record, parts: seq<(string, string)>): Record
    decreases |parts|
  {
    if parts == [] then r
    else Put(if parts[0].1 == "" then r else r[parts[0].0 := parts[0].1], parts[1..])
  }

  lemma {:induction false} RecordsLine(parts: seq<(string, string)>, r: Record, more: seq<Token>)
    requires GoodTags(parts)
    ensures Records(LineTokens(parts) + more, r) == [Put(r, parts)] + Records(more, map[])
    decreases |parts|
  {
    hide TagName;
    var all := LineTokens(parts) + more;
    if parts == [] {
      assert all[1..] == more;
    } else if parts[0].1 == "" {
      RecordsLine(parts[1..], r, more);
    } else {
      NotAnEnd(parts[0].0);
      RecordsLine(parts[1..], r[parts[0].0 := parts[0].1], more);
      assert all[0] == Token(parts[0].0, parts[0].1);
      assert all[1..] == LineTokens(parts[1..]) + more;
    }
  }

  lemma NotAnEnd(tag: string)
    requires TagName(tag)
    ensures tag != "EOR" && tag != "EOH"
  {}

  ghost predicate Distinct(parts: seq<(string, string)>) {
    forall i, j :: 0 <= i < j < |parts| ==> parts[i].0 != parts[j].0
  }

  /** A part written under its own tag is what the dictionary returns. */
  lemma {:induction false} GetPart(r: Record, parts: seq<(string, string)>, k: nat, default: string)
    requires Distinct(parts) && k < |parts| && parts[k].0 !in r
    ensures Get(Put(r, parts), parts[k].0, default) == if parts[k].1 == "" then default else parts[k].1
    decreases k
  {
    var next := if parts[0].1 == "" then r else r[parts[0].0 := parts[0].1];
    if k == 0 {
      Absent(next, parts[1..], parts[0].0);
    } else {
      assert parts[1..][k - 1] == parts[k];
      GetPart(next, parts[1..], k - 1, default);
    }
  }

  lemma {:induction false} Absent(r: Record, parts: seq<(string, string)>, tag: string)
    requires forall i :: 0 <= i < |parts| ==> parts[i].0 != tag
    ensures tag in Put(r, parts) <==> tag in r
    ensures tag in r ==> Put(r, parts)[tag] == r[tag]
    decreases |parts|
  {
    if parts != [] {
      Absent(if parts[0].1 == "" then r else r[parts[0].0 := parts[0].1], parts[1..], tag);
    }
  }

  // ---- the tags of a record ----

  const TAGS := [
    "CALL", "QSO_DATE", "TIME_ON", "MODE", "SUBMODE", "BAND", "FREQ", "RST_SENT", "RST_RCVD", "NAME", "QTH",
    "GRIDSQUARE", "COMMENT", "STATION_CALLSIGN", "MY_GRIDSQUARE", "MY_CITY", "OPERATOR", "MY_NAME",
    "APP_OPENSSTV_DIRECTION"]

  /** Length, first and last letter tell the tags apart. */
  function Signature(tag: string): (nat, char, char)
    requires tag != ""
  {
    (|tag|, tag[0], tag[|tag| - 1])
  }

  const SIGNATURES := [
    (4, 'C', 'L'), (8, 'Q', 'E'), (7, 'T', 'N'), (4, 'M', 'E'), (7, 'S', 'E'), (4, 'B', 'D'), (4, 'F', 'Q'),
    (8, 'R', 'T'), (8, 'R', 'D'), (4, 'N', 'E'), (3, 'Q', 'H'), (10, 'G', 'E'), (7, 'C', 'T'), (16, 'S', 'N'),
    (13, 'M', 'E'), (7, 'M', 'Y'), (8, 'O', 'R'), (7, 'M', 'E'), (22, 'A', 'N')]

  lemma TagSignature(i: nat)
    requires i < 19
    ensures TAGS[i] != "" && Signature(TAGS[i]) == SIGNATURES[i]
  {}

  lemma TagSpelt(i: nat)
    requires i < 19
    ensures TagName(TAGS[i])
  {}

  lemma SignaturesDiffer(i: nat, j: nat)
    requires i < j < 19
    ensures SIGNATURES[i] != SIGNATURES[j]
  {}

  lemma PartsTagged(q: Qso, s: Station, t: Tables)
    ensures var parts := Parts(q, s, t);
      |parts| == 19 && GoodTags(parts) && Distinct(parts) && forall i :: 0 <= i < 19 ==> parts[i].0 == TAGS[i]
  {
    hide TagName;
    var parts := Parts(q, s, t);
    TagsInOrder(q, s, t);
    forall i | 0 <= i < 19 ensures TagName(parts[i].0) {
      TagSpelt(i);
    }
    forall i, j | 0 <= i < j < 19 ensures parts[i].0 != parts[j].0 {
      TagSignature(i);
      TagSignature(j);
      SignaturesDiffer(i, j);
    }
  }

  lemma TagsInOrder(q: Qso, s: Station, t: Tables)
    ensures |Parts(q, s, t)| == 19 && forall i :: 0 <= i < 19 ==> Parts(q, s, t)[i].0 == TAGS[i]
  {
    hide ExportMode, Strip, Upper, Band, MhzText;
  }

  /** What the reader finds under the k-th tag of an exported record. */
  lemma PartRead(q: Qso, s: Station, t: Tables, k: nat, default: string)
    requires k < 19
    ensures var v := Parts(q, s, t)[k].1;
      Get(Put(map[], Parts(q, s, t)), TAGS[k], default) == if v == "" then default else v
  {
    hide Parts;
    PartsTagged(q, s, t);
    GetPart(map[], Parts(q, s, t), k, default);
  }

  // ---- the normal form ----

  /** What is left of a contact after an export and an import. */
  function Normal(q: Qso, t: Tables): Qso {
    var frequency := if q.frequency.Some? && 0 < q.frequency.value < MAX_FREQ_HZ then q.frequency else None;
    var bandRaw := Lower(Strip(q.band));
    Qso(q.direction, Upper(Strip(q.callsign)), q.time, 0, Settle(q.mode, t), frequency,
        if Band(frequency) != "" then Band(frequency) else if BandName(bandRaw) then bandRaw else "",
        Strip(q.rsvSent), Strip(q.rsvReceived), Strip(q.name), Strip(q.qth), Strip(q.grid), Strip(q.comment))
  }

  lemma {:induction false} LookUpInTable(hz: int, table: seq<(int, int, string)>, n: nat)
    requires n <= |BAND_TABLE| && table == BAND_TABLE[n..]
    ensures LookUp(hz, table) != "" ==> hz < MAX_FREQ_HZ
    decreases |table|
  {
    if table != [] {
      assert table[0] == BAND_TABLE[n];
      EdgeInRange(n);
      LookUpInTable(hz, table[1..], n + 1);
    }
  }

  lemma EdgeInRange(n: nat)
    requires n < |BAND_TABLE|
    ensures BAND_TABLE[n].1 < MAX_FREQ_HZ
  {}

  lemma BandInRange(hz: Option<int>)
    ensures Band(hz) != "" ==> 0 < hz.value < MAX_FREQ_HZ
  {
    hide LookUp;
    if hz.Some? {
      LookUpInTable(hz.value, BAND_TABLE, 0);
    }
  }

  /** The direction survives, TX as the absence of a field. */
  lemma DirectionRead()
    ensures Upper(Strip("RX")) == "RX" && Upper(Strip("TX")) == "TX"
  {
    StripTrimmed("RX");
    StripTrimmed("TX");
  }

  lemma FrequencyRead(hz: Option<int>)
    ensures var s := if MhzText(hz).Some? then MhzText(hz).value else "";
      (if Strip(s) == "" then None else ParseMhz(Strip(s)))
        == if hz.Some? && 0 < hz.value < MAX_FREQ_HZ then hz else None
  {
    hide Digits, Padded, ParseMhz;
    EmptyText();
    if hz.Some? && hz.value > 0 {
      FrequencyRoundTrip(hz.value);
      StripTrimmed(MhzText(hz).value);
    }
  }

  /** What the reader finds in an exported record. */
  lemma IdentityRead(q: Qso, s: Station, t: Tables)
    ensures var r := Put(map[], Parts(q, s, t));
      && Get(r, "CALL", "") == Upper(Strip(q.callsign))
      && Get(r, "QSO_DATE", "") == QsoDate(q.time) && Get(r, "TIME_ON", "") == TimeOn(q.time)
      && Get(r, "MODE", "") == ExportMode(q.mode, t).0 && Get(r, "SUBMODE", "") == ExportMode(q.mode, t).1
      && Get(r, "BAND", "") == (if Band(q.frequency) != "" then Band(q.frequency) else q.band)
      && Get(r, "FREQ", "") == (if MhzText(q.frequency).Some? then MhzText(q.frequency).value else "")
  {
    hide Strip, Upper, ExportMode, Band, MhzText, QsoDate, TimeOn, Put, Get;
    PartRead(q, s, t, 0, "");
    PartRead(q, s, t, 1, "");
    PartRead(q, s, t, 2, "");
    PartRead(q, s, t, 3, "");
    PartRead(q, s, t, 4, "");
    PartRead(q, s, t, 5, "");
    PartRead(q, s, t, 6, "");
  }

  lemma DetailsRead(q: Qso, s: Station, t: Tables)
    ensures var r := Put(map[], Parts(q, s, t));
      && Get(r, "RST_SENT", "") == q.rsvSent && Get(r, "RST_RCVD", "") == q.rsvReceived
      && Get(r, "NAME", "") == q.name && Get(r, "QTH", "") == q.qth
      && Get(r, "GRIDSQUARE", "") == q.grid && Get(r, "COMMENT", "") == q.comment
      && Get(r, "APP_OPENSSTV_DIRECTION", "TX") == (if q.direction == RX then "RX" else "TX")
  {
    hide Strip, Upper, ExportMode, Band, MhzText, QsoDate, TimeOn, Put, Get;
    PartRead(q, s, t, 7, "");
    PartRead(q, s, t, 8, "");
    PartRead(q, s, t, 9, "");
    PartRead(q, s, t, 10, "");
    PartRead(q, s, t, 11, "");
    PartRead(q, s, t, 12, "");
    PartRead(q, s, t, 18, "TX");
  }

  /** One record read back: its normal form, or nothing when it has no callsign. */
  lemma BuildNormal(q: Qso, s: Station, t: Tables)
    ensures BuildQso(Put(map[], Parts(q, s, t)), t) == if Strip(q.callsign) == "" then None else Some(Normal(q, t))
  {
    hide Strip, Upper, Lower, ExportMode, ImportMode, Band, BandName, MhzText, ParseMhz, QsoDate, TimeOn, ParseDateTime,
      Put, Get, Parts;
    EmptyText();
    DirectionRead();
    IdentityRead(q, s, t);
    DetailsRead(q, s, t);
    FrequencyRead(q.frequency);
    DateTimeRoundTrip(q.time);
    StripTrimmed(QsoDate(q.time));
    StripTrimmed(TimeOn(q.time));
    BandInRange(q.frequency);
    BandNothing();
    StripIdempotent(q.callsign);
    UpperKeeps(Strip(q.callsign));
    StripTrimmed(Upper(Strip(q.callsign)));
  }

  lemma BandNothing()
    ensures Band(None) == ""
  {}

  // ---- the header ----

  /** Neither the text nor its end can be part of a marker. */
  ghost predicate Clean(data: seq<byte>) {
    !HasMark(data) && (data != [] ==> data[|data| - 1] == 10)
  }

  lemma CleanConcat(a: seq<byte>, b: seq<byte>)
    requires Clean(a) && Clean(b)
    ensures Clean(a + b)
  {
    var data := a + b;
    forall i ensures !MarkAt(data, i) {
      assert a != [] ==> data[|a| - 1] == 10;
      assert i + 5 <= |a| ==> MarkAt(data, i) == MarkAt(a, i);
      assert i >= |a| ==> MarkAt(data, i) == MarkAt(b, i - |a|);
    }
  }

  /** A line that starts with its only `<`, and not with `<E`, is clean. */
  lemma CleanLine(line: string)
    requires line != "" && line[|line| - 1] == '\n' && '<' !in line[1..]
    requires |line| > 1 && line[0] == '<' ==> line[1] as int < 128 && line[1] != 'E' && line[1] != 'e'
    ensures Clean(Encode(line))
  {
    hide Encode, EncodeChar, HasMark;
    LastByte(line);
    OnlyFirst(line);
    NoMarkFrom(Encode(line));
  }

  /** Without a later `<`, only a marker in front could be one. */
  lemma NoMarkFrom(data: seq<byte>)
    requires data != [] && forall i :: 0 < i < |data| ==> data[i] != LT
    requires |data| > 1 && data[0] == LT ==> data[1] != 69 && data[1] != 101
    ensures !HasMark(data)
  {
    forall i ensures !MarkAt(data, i) {}
  }

  /** `<` occurs in the bytes at most in front, and what follows it is the second character. */
  lemma OnlyFirst(line: string)
    requires line != "" && '<' !in line[1..]
    ensures forall i :: 0 < i < |Encode(line)| ==> Encode(line)[i] != LT
    ensures Encode(line)[0] == LT ==> line[0] == '<'
    ensures |line| > 1 && line[0] == '<' && line[1] as int < 128
      ==> |Encode(line)| > 1 && Encode(line)[1] == line[1] as int
  {
    var n, tail := |EncodeChar(line[0])|, Encode(line[1..]);
    AsciiByteIsChar(line[1..], '<');
    assert forall i :: n <= i < |Encode(line)| ==> Encode(line)[i] == tail[i - n];
  }

  lemma {:induction false} LastByte(line: string)
    requires line != "" && line[|line| - 1] as int < 128
    ensures Encode(line)[|Encode(line)| - 1] == line[|line| - 1] as int
  {
    if |line| > 1 {
      LastByte(line[1..]);
    }
  }

  /** A header without a marker is exactly what the reader drops. */
  lemma BodyAfterHeader(head: seq<byte>, tail: seq<byte>)
    requires !HasMark(head) && !StartsWithTag(head + Encode("<EOH>") + tail)
    ensures Body(head + Encode("<EOH>") + tail) == tail
  {
    var data := head + Encode("<EOH>") + tail;
    EncodeAscii("<EOH>");
    var mark := Encode("<EOH>");
    assert data[|head|] == mark[0] && data[|head| + 1] == mark[1] && data[|head| + 2] == mark[2];
    assert data[|head| + 3] == mark[3] && data[|head| + 4] == mark[4];
    assert MarkAt(data, |head|);
    forall i | 0 <= i < |head| ensures !MarkAt(data, i) {
      assert i + 5 <= |head| ==> MarkAt(data, i) == MarkAt(head, i);
    }
    FindMarkAt(data, |head|);
    assert data[|head| + 5..] == tail;
  }

  lemma FindMarkAt(data: seq<byte>, k: nat)
    requires k < |data| && MarkAt(data, k) && forall i :: 0 <= i < k ==> !MarkAt(data, i)
    ensures FindMark(data, 0) == k
  {}

  /** The header lines in front of the program version. */
  function FrontOf(now: Time): string {
    "Open-SSTV logbook export\n" + ("Generated: " + Iso(now) + "\n") + "\n"
    + TagLine("ADIF_VER", "3.1.5") + TagLine("PROGRAMID", "Open-SSTV")
  }

  lemma FrontClean(now: Time)
    ensures Clean(Encode(FrontOf(now)))
  {
    hide Encode, Clean, TagLine, Iso;
    FixedLines(now);
    FieldLine("ADIF_VER", "3.1.5");
    FieldLine("PROGRAMID", "Open-SSTV");
    var a := "Open-SSTV logbook export\n" + ("Generated: " + Iso(now) + "\n");
    var b := a + "\n";
    EncodedClean("Open-SSTV logbook export\n", "Generated: " + Iso(now) + "\n");
    EncodedClean(a, "\n");
    EncodedClean(b, TagLine("ADIF_VER", "3.1.5"));
    EncodedClean(b + TagLine("ADIF_VER", "3.1.5"), TagLine("PROGRAMID", "Open-SSTV"));
  }

  lemma HeaderClean(version: string, now: Time)
    requires !HasMark(Encode(version))
    ensures Clean(Encode(Header(version, now)))
  {
    hide Encode, Clean, TagLine, HasMark, Iso, QsoDate, TimeOn;
    var created := QsoDate(now) + " " + TimeOn(now);
    var own := if version == "" then "" else TagLine("PROGRAMVERSION", version);
    FixedLines(now);
    FrontClean(now);
    FieldLine("CREATED_TIMESTAMP", created);
    VersionLine(version);
    EncodedClean(FrontOf(now), own);
    EncodedClean(FrontOf(now) + own, TagLine("CREATED_TIMESTAMP", created));
  }

  lemma EncodedClean(s: string, t: string)
    requires Clean(Encode(s)) && Clean(Encode(t))
    ensures Clean(Encode(s + t))
  {
    EncodeConcat(s, t);
    CleanConcat(Encode(s), Encode(t));
  }

  lemma FixedLines(now: Time)
    ensures Clean(Encode("Open-SSTV logbook export\n")) && Clean(Encode("Generated: " + Iso(now) + "\n"))
      && Clean(Encode("\n"))
    ensures '<' !in QsoDate(now) + " " + TimeOn(now)
  {
    hide Encode, Clean, Padded, Iso, QsoDate, TimeOn;
    TimesPlain(now);
    PlainLine("Open-SSTV logbook export\n");
    PlainLine("Generated: " + Iso(now) + "\n");
    PlainLine("\n");
  }

  lemma TimesPlain(now: Time)
    ensures '<' !in QsoDate(now) && '<' !in TimeOn(now) && '<' !in Iso(now)
  {
    hide Padded;
  }

  lemma PlainLine(line: string)
    requires line != "" && line[|line| - 1] == '\n' && '<' !in line
    ensures Clean(Encode(line))
  {
    CleanLine(line);
  }

  lemma FieldLine(tag: string, value: string)
    requires TagName(tag) && tag[0] != 'E' && value != "" && '<' !in value
    ensures Clean(Encode(TagLine(tag, value)))
  {
    hide Encode, Clean, Digits, Upper, Field, TagName;
    var block := FieldStart(tag, |Encode(value)|);
    FieldText(tag, value);
    NotE(tag);
    assert "<" + (tag + ":" + Digits(|Encode(value)|)) + ">" == block;
    StartOnly(block, value);
    CleanLine(TagLine(tag, value));
  }

  lemma NotE(tag: string)
    requires TagName(tag) && tag[0] != 'E'
    ensures tag[0] != 'e' && tag[0] as int < 128 && Upper(tag) == tag
  {}

  lemma StartOnly(block: string, value: string)
    requires |block| > 1 && '<' !in block[1..] && '<' !in value
    ensures var line := block + value + "\n";
      line[0] == block[0] && line[1] == block[1] && line[|line| - 1] == '\n' && '<' !in line[1..]
  {
    assert (block + value + "\n")[1..] == block[1..] + value + "\n";
  }

  lemma FieldStart(tag: string, n: nat) returns (block: string)
    requires TagName(tag)
    ensures block == "<" + Upper(tag) + ":" + Digits(n) + ">"
    ensures |block| > 1 && block[0] == '<' && '<' !in block[1..] && block[1] == tag[0] && IsAscii(block)
  {
    hide Digits;
    block := "<" + Upper(tag) + ":" + Digits(n) + ">";
    var u, d := Upper(tag), Digits(n);
    assert block[1..] == u + ":" + d + ">";
    assert u == tag;
    assert '<' !in u && '<' !in d;
    assert IsAscii(u) && IsAscii(d);
  }

  /** The version line is clean when the version holds no marker. */
  lemma VersionLine(version: string)
    requires !HasMark(Encode(version))
    ensures Clean(Encode(if version == "" then "" else TagLine("PROGRAMVERSION", version)))
  {
    if version != "" {
      VersionLineClean(version);
    }
  }

  lemma VersionLineClean(version: string)
    requires !HasMark(Encode(version)) && version != ""
    ensures Clean(Encode(TagLine("PROGRAMVERSION", version)))
  {
    hide Encode, Digits, Upper, Clean, HasMark;
    assert TagName("PROGRAMVERSION");
    var tag := FieldStart("PROGRAMVERSION", |Encode(version)|);
    assert TagLine("PROGRAMVERSION", version) == tag + (version + "\n");
    EncodeConcat(tag, version + "\n");
    EncodeConcat(version, "\n");
    EncodeAscii("\n");
    OnlyFirst(tag);
    CleanBetween(Encode(tag), Encode(version), Encode("\n"));
  }

  lemma CleanBetween(h: seq<byte>, v: seq<byte>, n: seq<byte>)
    requires |h| > 1 && h[1] == 80 && forall i :: 0 < i < |h| ==> h[i] != LT
    requires !HasMark(v) && n == [10]
    ensures Clean(h + (v + n))
  {
    var data := h + (v + n);
    forall i ensures !MarkAt(data, i) {
      assert i >= |h| && i + 5 <= |h| + |v| ==> MarkAt(data, i) == MarkAt(v, i - |h|);
      assert data[|data| - 1] == 10;
      assert 0 <= i < |h| ==> data[i] == h[i];
      assert data[1] == h[1];
    }
  }

  // ---- main results ----

  /** The contacts that have a callsign, each in its normal form. */
  function NormalAll(qsos: seq<Qso>, t: Tables): seq<Qso> {
    if qsos == [] then []
    else (if Strip(qsos[0].callsign) == "" then [] else [Normal(qsos[0], t)]) + NormalAll(qsos[1..], t)
  }

  lemma {:induction false} LinesRead(qsos: seq<Qso>, s: Station, drafts: bool, t: Tables)
    ensures BuildAll(Records(Tokens(Encode(Lines(qsos, s, drafts, t))), map[]), t) == NormalAll(qsos, t)
  {
    hide Encode, Line, Parts, Normal, BuildQso, Put;
    if qsos == [] {
      NothingRead();
    } else if !drafts && Strip(qsos[0].callsign) == "" {
      LinesRead(qsos[1..], s, drafts, t);
    } else {
      var parts, more := Parts(qsos[0], s, t), Lines(qsos[1..], s, drafts, t);
      PartsTagged(qsos[0], s, t);
      OneLine(parts, more);
      BuildNormal(qsos[0], s, t);
      LinesRead(qsos[1..], s, drafts, t);
    }
  }

  lemma NothingRead()
    ensures Tokens(Encode("")) == []
  {}

  /** One line of the document is one record of the reader. */
  lemma OneLine(parts: seq<(string, string)>, more: string)
    requires GoodTags(parts)
    ensures Records(Tokens(Encode(Line(parts) + "\n" + more)), map[])
      == [Put(map[], parts)] + Records(Tokens(Encode(more)), map[])
  {
    hide Encode, Tokens, Line, Records, Put, GoodTags;
    EncodeConcat(Line(parts) + "\n", more);
    EncodeConcat(Line(parts), "\n");
    var rest := Encode("\n") + Encode(more);
    assert Encode(Line(parts) + "\n" + more) == Encode(Line(parts)) + rest;
    TokensLine(parts, rest);
    TokensChar('\n', Encode(more));
    RecordsLine(parts, map[], Tokens(Encode(more)));
  }

  /** Main result. Importing an export gives every contact that has a callsign, in
      order and in its normal form, whatever bytes its fields hold, as long as the
      program version holds no end-of-header marker. */
  lemma ExportThenImport(qsos: seq<Qso>, s: Station, version: string, drafts: bool, now: Time, t: Tables)
    requires !HasMark(Encode(version))
    ensures Import(Encode(Export(qsos, s, version, drafts, now, t)), t) == NormalAll(qsos, t)
  {
    hide Encode, Tokens, Header, Lines, Body, HasMark;
    var head, lines := Header(version, now), Lines(qsos, s, drafts, t);
    HeaderClean(version, now);
    EncodeConcat(head + "<EOH>\n\n", lines);
    assert head + "<EOH>\n\n" == (head + "<EOH>") + ("\n" + "\n");
    EncodeConcat(head + "<EOH>", "\n" + "\n");
    EncodeConcat(head, "<EOH>");
    EncodeConcat("\n", "\n");
    var tail := Encode("\n") + (Encode("\n") + Encode(lines));
    var data := Encode(Export(qsos, s, version, drafts, now, t));
    assert data == Encode(head) + Encode("<EOH>") + tail;
    StartsWithText(version, now, Encode("<EOH>") + tail);
    assert data == Encode(head) + (Encode("<EOH>") + tail);
    BodyAfterHeader(Encode(head), tail);
    TokensChar('\n', Encode("\n") + Encode(lines));
    TokensChar('\n', Encode(lines));
    LinesRead(qsos, s, drafts, t);
  }

  lemma StartsWithText(version: string, now: Time, rest: seq<byte>)
    ensures Encode(Header(version, now)) != [] && !StartsWithTag(Encode(Header(version, now)) + rest)
  {
    hide Field, TagLine, Iso, QsoDate, TimeOn;
    var head := Header(version, now);
    HeaderStarts(version, now);
    assert Encode(head)[0] == 79;
  }

  lemma HeaderStarts(version: string, now: Time)
    ensures Header(version, now) != "" && Header(version, now)[0] == 'O'
  {
    hide TagLine, Iso, QsoDate, TimeOn;
  }

  // ---- the limit of the round trip ----

  lemma FrontUnmarked(now: Time, n: nat)
    ensures !HasMark(Encode(FrontOf(now) + ("<" + Upper("PROGRAMVERSION") + ":" + Digits(n) + ">")))
  {
    hide Encode, HasMark, FrontOf, Upper, Digits;
    assert TagName("PROGRAMVERSION");
    var open := FieldStart("PROGRAMVERSION", n);
    OnlyFirst(open);
    FrontClean(now);
    EncodeConcat(FrontOf(now), open);
    UnmarkedConcat(Encode(FrontOf(now)), Encode(open));
  }

  lemma UnmarkedConcat(a: seq<byte>, b: seq<byte>)
    requires Clean(a) && |b| > 1 && b[1] == 80 && forall i :: 0 < i < |b| ==> b[i] != LT
    ensures !HasMark(a + b)
  {
    var data := a + b;
    forall i ensures !MarkAt(data, i) {
      assert a != [] ==> data[|a| - 1] == 10;
      assert i + 5 <= |a| ==> MarkAt(data, i) == MarkAt(a, i);
      assert i >= |a| && i < |data| ==> data[i] == b[i - |a|];
      assert data[|a| + 1] == b[1];
    }
  }

  lemma MarkHere(rest: seq<byte>)
    ensures HasMark(Encode("<EOH>") + rest)
  {
    EncodeAscii("<EOH>");
    var mark := Encode("<EOH>");
    assert MarkAt(mark + rest, 0);
  }

  lemma ExportParts(qsos: seq<Qso>, s: Station, version: string, drafts: bool, now: Time, t: Tables)
    requires version != ""
    ensures Export(qsos, s, version, drafts, now, t)
      == (FrontOf(now) + ("<" + Upper("PROGRAMVERSION") + ":" + Digits(|Encode(version)|) + ">"))
         + (version + ("\n" + TagLine("CREATED_TIMESTAMP", QsoDate(now) + " " + TimeOn(now)) + "<EOH>\n\n"
                       + Lines(qsos, s, drafts, t)))
  {
    hide Lines, Encode, Digits, Upper, QsoDate, TimeOn, FrontOf;
    var created := TagLine("CREATED_TIMESTAMP", QsoDate(now) + " " + TimeOn(now));
    HeaderParts(version, now);
    Reassociate(FrontOf(now), "<" + Upper("PROGRAMVERSION") + ":" + Digits(|Encode(version)|) + ">", version, created,
                Lines(qsos, s, drafts, t));
  }

  lemma Reassociate(f: string, o: string, v: string, c: string, l: string)
    ensures f + (o + v + "\n") + c + "<EOH>\n\n" + l == (f + o) + (v + ("\n" + c + "<EOH>\n\n" + l))
  {
    var e := "<EOH>\n\n";
    assert f + (o + v + "\n") == (f + o) + v + "\n";
    assert "\n" + c + e + l == "\n" + (c + e + l);
  }

  lemma HeaderParts(version: string, now: Time)
    requires version != ""
    ensures Header(version, now)
      == FrontOf(now) + TagLine("PROGRAMVERSION", version)
        + TagLine("CREATED_TIMESTAMP", QsoDate(now) + " " + TimeOn(now))
  {
    hide TagLine, Iso, QsoDate, TimeOn;
  }

  /** A field longer than the rest of the data takes all of it. */
  lemma Swallowed(rest: string, t: Tables)
    ensures BuildAll(Records(Tokens(Encode("<" + ("A:" + Digits(|Encode(rest)|)) + ">" + rest)), map[]), t) == []
  {
    hide Encode, Tokens, Classify, Digits, Decode;
    var n := |Encode(rest)|;
    var block := "A" + ":" + Digits(n);
    assert "A:" + Digits(n) == block;
    BlockIsAscii("A", Digits(n));
    ClassifyField("A", n);
    EncodeConcat("<" + block + ">", rest);
    TokensBlock(block, Encode(rest));
    assert Encode(rest)[n..] == [];
    NoTokens();
    var tokens := [Token("A", Decode(Encode(rest)[..n]))];
    assert tokens[1..] == [];
    var r: Record := map[]["A" := tokens[0].value];
    assert "A" in r && "CALL" !in r;
    assert Records(tokens[1..], r) == [r];
    NoCall(r, t);
  }

  lemma NoTokens()
    ensures Tokens([]) == []
  {}

  lemma NoCall(r: Record, t: Tables)
    requires "CALL" !in r
    ensures BuildAll([r], t) == []
  {
    EmptyText();
    assert Upper(Strip("")) == "";
  }

  /** A program version that does hold a marker can swallow the whole log: for every
      log there is one with which nothing is imported at all. */
  lemma MarkedVersionLosesAll(qsos: seq<Qso>, s: Station, drafts: bool, now: Time, t: Tables) returns (version: string)
    ensures HasMark(Encode(version))
    ensures Import(Encode(Export(qsos, s, version, drafts, now, t)), t) == []
  {
    hide Encode, Tokens, Lines, HasMark, TagLine, Digits, MarkAt, FrontOf, Upper, Body, StartsWithTag;
    var created := TagLine("CREATED_TIMESTAMP", QsoDate(now) + " " + TimeOn(now));
    var rest := "\n" + created + "<EOH>\n\n" + Lines(qsos, s, drafts, t);
    var swallow := "<" + ("A:" + Digits(|Encode(rest)|)) + ">";
    version := "<EOH>" + swallow;
    var front := FrontOf(now) + ("<" + Upper("PROGRAMVERSION") + ":" + Digits(|Encode(version)|) + ">");
    FrontUnmarked(now, |Encode(version)|);
    ExportParts(qsos, s, version, drafts, now, t);
    Associate("<EOH>", swallow, rest);
    EncodeThree(front, "<EOH>", swallow + rest);
    EncodeConcat("<EOH>", swallow);
    MarkHere(Encode(swallow));
    FrontStarts(now);
    NoTagAtStart(front, "<EOH>" + (swallow + rest));
    BodyAfterHeader(Encode(front), Encode(swallow + rest));
    Swallowed(rest, t);
  }

  lemma EncodeThree(a: string, b: string, c: string)
    ensures Encode(a + (b + c)) == Encode(a) + Encode(b) + Encode(c)
  {
    hide Encode;
    EncodeConcat(a, b + c);
    EncodeConcat(b, c);
    Associate(Encode(a), Encode(b), Encode(c));
  }

  lemma FrontStarts(now: Time)
    ensures FrontOf(now) != "" && FrontOf(now)[0] == 'O'
  {
    hide TagLine, Iso;
  }

  lemma NoTagAtStart(head: string, rest: string)
    requires head != "" && head[0] == 'O'
    ensures !StartsWithTag(Encode(head + rest))
  {
    assert Encode(head + rest)[0] == 79;
  }
}
