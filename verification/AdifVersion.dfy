/** A program version that holds an end-of-header marker: what importing the export
    gives then. */
module AdifVersion {
  import opened Prelude
  import opened Text
  import opened Utf8
  import opened AdifModes
  import opened AdifValues
  import opened AdifCodec
  import opened AdifRoundTrip

  // ---- reading a text in two pieces ----

  /** A value that reaches past the end of a text: its tag, the bytes that are there, and
      how many are missing. */
  datatype Cut = Cut(tag: string, got: seq<byte>, missing: nat)

  datatype Scanned = Scanned(tokens: seq<Token>, cut: Option<Cut>)

  /** The tokens that end inside the text, and the value that does not. */
  function Scan(data: seq<byte>): Scanned
    decreases |data|, 0
  {
    var lt := Find(data, LT, 0);
    if lt == |data| then Scanned([], None)
    else
      var gt := Find(data, GT, lt + 1);
      if gt == |data| then Scanned([], None) else ScanAfter(Classify(AsciiText(data[lt + 1..gt])), data[gt + 1..])
  }

  function ScanAfter(kind: Kind, rest: seq<byte>): Scanned
    decreases |rest|, 1
  {
    match kind
    case End(tag) => Ahead(Token(tag, ""), Scan(rest))
    case Skip => Scan(rest)
    case Value(tag, n) =>
      if n <= |rest| then Ahead(Token(tag, Decode(rest[..n])), Scan(rest[n..]))
      else Scanned([], Some(Cut(tag, rest, n - |rest|)))
  }

  function Ahead(t: Token, s: Scanned): Scanned {
    s.(tokens := [t] + s.tokens)
  }

  /** The tokens when more data follows. */
  function Onward(s: Scanned, more: seq<byte>): seq<Token> {
    match s.cut
    case None => s.tokens + Tokens(more)
    case Some(c) =>
      var n := Min(c.missing, |more|);
      s.tokens + ([Token(c.tag, Decode(c.got + more[..n]))] + Tokens(more[n..]))
  }

  /** Every tag that opens in the text also closes in it. */
  ghost predicate TagsClose(data: seq<byte>) {
    forall i :: 0 <= i < |data| && data[i] == LT ==> GT in data[i + 1..]
  }

  lemma SuffixCloses(data: seq<byte>, m: nat)
    requires TagsClose(data) && m <= |data|
    ensures TagsClose(data[m..])
  {
    forall i | 0 <= i < |data[m..]| && data[m..][i] == LT ensures GT in data[m..][i + 1..] {
      assert data[m + i] == LT;
      assert data[m..][i + 1..] == data[m + i + 1..];
    }
  }

  lemma {:induction false} FindInFront(data: seq<byte>, more: seq<byte>, b: byte, i: nat)
    requires i <= |data| && Find(data, b, i) < |data|
    ensures Find(data + more, b, i) == Find(data, b, i)
    decreases |data| - i
  {
    if data[i] != b {
      FindInFront(data, more, b, i + 1);
    }
  }

  /** Reading a text and then more of it. */
  lemma {:induction false} ScanConcat(data: seq<byte>, more: seq<byte>)
    requires TagsClose(data)
    ensures Tokens(data + more) == Onward(Scan(data), more)
    decreases |data|, 0
  {
    hide Classify, AsciiText, Decode, Find, Onward, ScanAfter, TokensAfter, TagsClose;
    var lt := Find(data, LT, 0);
    if lt == |data| {
      TokensPass(data, more);
      OnwardPlain(more);
    } else {
      var gt := Find(data, GT, lt + 1);
      TagCloses(data, lt);
      FindInFront(data, more, LT, 0);
      FindInFront(data, more, GT, lt + 1);
      TwoSlices(data, more, lt, gt);
      SuffixCloses(data, gt + 1);
      AfterConcat(Classify(AsciiText(data[lt + 1..gt])), data[gt + 1..], more);
    }
  }

  lemma OnwardPlain(more: seq<byte>)
    ensures Onward(Scanned([], None), more) == Tokens(more)
  {
    hide Tokens;
    assert [] + Tokens(more) == Tokens(more);
  }

  lemma TagCloses(data: seq<byte>, lt: nat)
    requires TagsClose(data) && lt < |data| && data[lt] == LT
    ensures Find(data, GT, lt + 1) < |data|
  {
    var j :| 0 <= j < |data[lt + 1..]| && data[lt + 1..][j] == GT;
    assert data[lt + 1 + j] == GT;
  }

  lemma TwoSlices(data: seq<byte>, more: seq<byte>, lt: nat, gt: nat)
    requires lt < gt < |data|
    ensures (data + more)[lt + 1..gt] == data[lt + 1..gt] && (data + more)[gt + 1..] == data[gt + 1..] + more
  {}

  lemma {:induction false} AfterConcat(kind: Kind, rest: seq<byte>, more: seq<byte>)
    requires TagsClose(rest)
    ensures TokensAfter(kind, rest + more) == Onward(ScanAfter(kind, rest), more)
    decreases |rest|, 1
  {
    hide Decode, Tokens, Scan, TagsClose, Onward;
    match kind
    case End(tag) =>
      ScanConcat(rest, more);
      OnwardAhead(Token(tag, ""), Scan(rest), more);
    case Skip =>
      ScanConcat(rest, more);
    case Value(tag, n) =>
      ValueSlices(rest, more, n);
      if n <= |rest| {
        SuffixCloses(rest, n);
        ScanConcat(rest[n..], more);
        OnwardAhead(Token(tag, Decode(rest[..n])), Scan(rest[n..]), more);
      } else {
        OnwardCut(Cut(tag, rest, n - |rest|), more);
      }
  }

  lemma OnwardAhead(t: Token, s: Scanned, more: seq<byte>)
    ensures Onward(Ahead(t, s), more) == [t] + Onward(s, more)
  {
    hide Tokens, Decode;
    match s.cut
    case None => Associate([t], s.tokens, Tokens(more));
    case Some(c) =>
      var n := Min(c.missing, |more|);
      Associate([t], s.tokens, [Token(c.tag, Decode(c.got + more[..n]))] + Tokens(more[n..]));
  }

  lemma OnwardCut(c: Cut, more: seq<byte>)
    ensures var n := Min(c.missing, |more|);
      Onward(Scanned([], Some(c)), more) == [Token(c.tag, Decode(c.got + more[..n]))] + Tokens(more[n..])
  {
    hide Tokens, Decode;
    var n := Min(c.missing, |more|);
    var ts := [Token(c.tag, Decode(c.got + more[..n]))] + Tokens(more[n..]);
    assert [] + ts == ts;
  }

  lemma ValueSlices(rest: seq<byte>, more: seq<byte>, n: nat)
    ensures n <= |rest|
      ==> Min(n, |rest + more|) == n && (rest + more)[..n] == rest[..n] && (rest + more)[n..] == rest[n..] + more
    ensures n > |rest| ==>
      var k := Min(n - |rest|, |more|);
      Min(n, |rest + more|) == |rest| + k && (rest + more)[..|rest| + k] == rest + more[..k]
      && (rest + more)[|rest| + k..] == more[k..]
  {}

  // ---- records in two pieces ----

  /** The records that the tokens close. */
  function Closed(tokens: seq<Token>, current: Record): seq<Record> {
    if tokens == [] then []
    else if tokens[0].tag == "EOR" then [current] + Closed(tokens[1..], map[])
    else if tokens[0].tag == "EOH" then Closed(tokens[1..], map[])
    else Closed(tokens[1..], current[tokens[0].tag := tokens[0].value])
  }

  /** The record that they leave open. */
  function Open(tokens: seq<Token>, current: Record): Record {
    if tokens == [] then current
    else if tokens[0].tag == "EOR" || tokens[0].tag == "EOH" then Open(tokens[1..], map[])
    else Open(tokens[1..], current[tokens[0].tag := tokens[0].value])
  }

  lemma {:induction false} RecordsConcat(a: seq<Token>, b: seq<Token>, current: Record)
    ensures Records(a + b, current) == Closed(a, current) + Records(b, Open(a, current))
  {
    hide Records;
    if a == [] {
      assert [] + b == b && [] + Records(b, current) == Records(b, current);
    } else {
      assert (a + b)[0] == a[0] && (a + b)[1..] == a[1..] + b;
      assert a + b == [a[0]] + (a[1..] + b);
      var next := if a[0].tag == "EOR" || a[0].tag == "EOH" then map[] else current[a[0].tag := a[0].value];
      RecordsConcat(a[1..], b, next);
      RecordsStep(a[0], a[1..] + b, current, next);
      if a[0].tag == "EOR" {
        Associate([current], Closed(a[1..], map[]), Records(b, Open(a[1..], map[])));
      } else {
        assert [] + Records(a[1..] + b, next) == Records(a[1..] + b, next);
      }
    }
  }

  lemma RecordsStep(t: Token, rest: seq<Token>, current: Record, next: Record)
    requires next == if t.tag == "EOR" || t.tag == "EOH" then map[] else current[t.tag := t.value]
    ensures Records([t] + rest, current) == (if t.tag == "EOR" then [current] else []) + Records(rest, next)
  {
    assert ([t] + rest)[1..] == rest;
    assert [] + Records(rest, next) == Records(rest, next);
  }

  lemma {:induction false} BuildConcat(a: seq<Record>, b: seq<Record>, t: Tables)
    ensures BuildAll(a + b, t) == BuildAll(a, t) + BuildAll(b, t)
  {
    hide BuildQso;
    if a == [] {
      assert a + b == b;
    } else {
      assert (a + b)[0] == a[0] && (a + b)[1..] == a[1..] + b;
      BuildConcat(a[1..], b, t);
    }
  }

  // ---- the export of a marked version ----

  /** The header line that follows the version. */
  function Created(now: Time): string {
    TagLine("CREATED_TIMESTAMP", QsoDate(now) + " " + TimeOn(now))
  }

  /** What the reader takes for the start of the records: the version from behind its
      first marker on, and the rest of the header up to its own marker. */
  function Tail(version: string, now: Time): seq<byte>
    requires HasMark(Encode(version))
  {
    FirstMark(Encode(version));
    Encode(version)[FindMark(Encode(version), 0) + 5..] + Encode("\n" + Created(now))
  }

  lemma FirstMark(data: seq<byte>)
    requires HasMark(data)
    ensures FindMark(data, 0) + 5 <= |data| && MarkAt(data, FindMark(data, 0))
  {
    var i :| MarkAt(data, i);
  }

  /** The first marker of a version is the first of the whole file. */
  lemma BodyAfterVersion(front: seq<byte>, v: seq<byte>, post: seq<byte>)
    requires front != [] && front[|front| - 1] == GT && !HasMark(front) && HasMark(v)
      && !StartsWithTag(front + (v + post))
    ensures FindMark(v, 0) + 5 <= |v| && Body(front + (v + post)) == v[FindMark(v, 0) + 5..] + post
  {
    var k, data := FindMark(v, 0), front + (v + post);
    FirstMark(v);
    assert forall i :: 0 <= i < |v| ==> data[|front| + i] == v[i];
    assert MarkAt(data, |front| + k);
    forall i | 0 <= i < |front| + k ensures !MarkAt(data, i) {
      NoMarkBefore(front, v, post, i);
    }
    hide MarkAt, FindMark, StartsWithTag;
    FindMarkAt(data, |front| + k);
    assert data[|front| + k + 5..] == v[k + 5..] + post;
  }

  lemma NoMarkBefore(front: seq<byte>, v: seq<byte>, post: seq<byte>, i: nat)
    requires front != [] && front[|front| - 1] == GT && !HasMark(front) && i < |front| + FindMark(v, 0)
    requires FindMark(v, 0) + 5 <= |v|
    ensures !MarkAt(front + (v + post), i)
  {
    var data := front + (v + post);
    assert forall j :: 0 <= j < |front| ==> data[j] == front[j];
    assert forall j :: 0 <= j < |v| ==> data[|front| + j] == v[j];
    if i >= |front| {
      assert !MarkAt(v, i - |front|);
    } else if i + 5 <= |front| {
      assert !MarkAt(front, i);
    } else {
      assert data[|front| - 1] == GT;
    }
  }

  /** `PROGRAMVERSION`'s tag, with everything in front of it. */
  function FrontTag(version: string, now: Time): string {
    FrontOf(now) + ("<" + Upper("PROGRAMVERSION") + ":" + Digits(|Encode(version)|) + ">")
  }

  lemma FrontTagEnds(version: string, now: Time)
    ensures var f := Encode(FrontTag(version, now)); f != [] && f[|f| - 1] == GT
  {
    hide FrontOf, Upper, Digits, Encode;
    var text := FrontTag(version, now);
    assert text != "" && text[|text| - 1] == '>';
    LastByte(text);
  }

  /** Import, told from the tail. */
  lemma MarkedImport(qsos: seq<Qso>, s: Station, version: string, drafts: bool, now: Time, t: Tables)
    requires HasMark(Encode(version))
    ensures Import(Encode(Export(qsos, s, version, drafts, now, t)), t)
      == BuildAll(Records(Tokens(Tail(version, now) + (Encode("<EOH>\n\n") + Encode(Lines(qsos, s, drafts, t)))),
                          map[]), t)
  {
    hide Encode, Tokens, Lines, HasMark, TagLine, Digits, MarkAt, FrontOf, Upper, Body, StartsWithTag, Records,
      BuildAll;
    var lines, v := Lines(qsos, s, drafts, t), Encode(version);
    assert version != "" by { NoMarkInNothing(); }
    ExportParts(qsos, s, version, drafts, now, t);
    FrontUnmarked(now, |v|);
    FrontTagEnds(version, now);
    FrontStarts(now);
    var front, rest := FrontTag(version, now), "\n" + Created(now) + "<EOH>\n\n" + lines;
    assert Export(qsos, s, version, drafts, now, t) == front + (version + rest);
    EncodeConcat(front, version + rest);
    EncodeConcat(version, rest);
    NoTagAtStart(front, version + rest);
    BodyAfterVersion(Encode(front), v, Encode(rest));
    RestBytes("\n" + Created(now), "<EOH>\n\n", lines);
    FirstMark(v);
    Associate(v[FindMark(v, 0) + 5..], Encode("\n" + Created(now)), Encode("<EOH>\n\n") + Encode(lines));
  }

  lemma NoMarkInNothing()
    ensures !HasMark(Encode(""))
  {}

  lemma RestBytes(a: string, b: string, c: string)
    ensures Encode(a + b + c) == Encode(a) + (Encode(b) + Encode(c))
  {
    hide Encode;
    EncodeConcat(a + b, c);
    EncodeConcat(a, b);
    Associate(Encode(a), Encode(b), Encode(c));
  }

  /** The header line behind the version closes every tag. */
  lemma TailCloses(version: string, now: Time)
    requires HasMark(Encode(version))
    ensures TagsClose(Tail(version, now))
  {
    hide HasMark, MarkAt, FindMark;
    FirstMark(Encode(version));
    CreatedBytes(now);
    LastTagCloses(Encode(version)[FindMark(Encode(version), 0) + 5..], Encode("\n" + Created(now)));
  }

  /** A `>` with no `<` behind it. */
  ghost predicate ClosesLast(b: seq<byte>) {
    exists g :: 0 <= g < |b| && b[g] == GT && LT !in b[g..]
  }

  lemma LastTagCloses(a: seq<byte>, b: seq<byte>)
    requires ClosesLast(b)
    ensures TagsClose(a + b)
  {
    var g :| 0 <= g < |b| && b[g] == GT && LT !in b[g..];
    var data := a + b;
    assert data[|a| + g] == GT && forall j :: |a| + g <= j < |data| ==> data[j] == b[g..][j - |a| - g];
    forall i | 0 <= i < |data| && data[i] == LT ensures GT in data[i + 1..] {
      assert data[i + 1..][|a| + g - i - 1] == GT;
    }
  }

  /** A field's tag, and behind it its value, which has no `<`. */
  lemma CreatedText(now: Time) returns (block: string, value: string)
    ensures Created(now) == block + value + "\n" && block != "" && block[|block| - 1] == '>' && '<' !in value
  {
    hide Encode, Digits, Upper, QsoDate, TimeOn;
    value := QsoDate(now) + " " + TimeOn(now);
    FixedLines(now);
    assert TagName("CREATED_TIMESTAMP");
    block := FieldStart("CREATED_TIMESTAMP", |Encode(value)|);
  }

  lemma CreatedBytes(now: Time)
    ensures ClosesLast(Encode("\n" + Created(now)))
  {
    hide Encode, Created;
    var block, value := CreatedText(now);
    var head, more := "\n" + block, value + "\n";
    assert "\n" + Created(now) == head + more;
    EncodeConcat(head, more);
    LastByte(head);
    NoTagInside(more);
    GtThenNone(Encode(head), Encode(more));
  }

  lemma NoTagInside(s: string)
    requires '<' !in s
    ensures LT !in Encode(s)
  {
    AsciiByteIsChar(s, '<');
  }

  lemma GtThenNone(a: seq<byte>, b: seq<byte>)
    requires a != [] && a[|a| - 1] == GT && LT !in b
    ensures ClosesLast(a + b)
  {
    var d, g := a + b, |a| - 1;
    assert d[g..] == [GT] + b;
    assert d[g] == GT;
  }

  // ---- the reader finds the header's own marker ----

  lemma EndThenLines(lines: seq<byte>)
    ensures Tokens(Encode("<EOH>\n\n") + lines) == [Token("EOH", "")] + Tokens(lines)
  {
    hide Encode, Tokens;
    assert "<EOH>\n\n" == "<" + "EOH" + ">" + ("\n" + "\n");
    EncodeConcat("<" + "EOH" + ">", "\n" + "\n");
    EncodeConcat("\n", "\n");
    Associate(Encode("<" + "EOH" + ">"), Encode("\n") + Encode("\n"), lines);
    Associate(Encode("\n"), Encode("\n"), lines);
    TokensEnd("EOH", (Encode("\n") + Encode("\n")) + lines);
    TokensChar('\n', Encode("\n") + lines);
    TokensChar('\n', lines);
  }

  /** Main result. When no value of the tail reaches past it, the import gives what the
      tail's own closed records build, and then the log; so the log comes back if and only
      if those records build nothing. */
  lemma MarkerSeen(qsos: seq<Qso>, s: Station, version: string, drafts: bool, now: Time, t: Tables)
    requires HasMark(Encode(version)) && Scan(Tail(version, now)).cut.None?
    ensures var extra := BuildAll(Closed(Scan(Tail(version, now)).tokens, map[]), t);
      && Import(Encode(Export(qsos, s, version, drafts, now, t)), t) == extra + NormalAll(qsos, t)
      && (Import(Encode(Export(qsos, s, version, drafts, now, t)), t) == NormalAll(qsos, t) <==> extra == [])
  {
    hide Encode, Tokens, Lines, HasMark, Scan, Tail, Records, BuildAll, Closed, Import, Export, NormalAll;
    var lines, h := Encode(Lines(qsos, s, drafts, t)), Tail(version, now);
    var ts := Scan(h).tokens;
    MarkedImport(qsos, s, version, drafts, now, t);
    TailCloses(version, now);
    ScanConcat(h, Encode("<EOH>\n\n") + lines);
    EndThenLines(lines);
    RecordsConcat(ts, [Token("EOH", "")] + Tokens(lines), map[]);
    RecordsStep(Token("EOH", ""), Tokens(lines), Open(ts, map[]), map[]);
    BuildConcat(Closed(ts, map[]), Records(Tokens(lines), map[]), t);
    LinesRead(qsos, s, drafts, t);
    var extra := BuildAll(Closed(ts, map[]), t);
    assert [] + Records(Tokens(lines), map[]) == Records(Tokens(lines), map[]);
    assert extra + NormalAll(qsos, t) == NormalAll(qsos, t) ==> |extra| == 0;
  }

  /** A version without `<` behind its first marker is of that kind, and every log comes back. */
  lemma PlainTailRoundTrips(qsos: seq<Qso>, s: Station, version: string, drafts: bool, now: Time, t: Tables)
    requires HasMark(Encode(version)) && LT !in Encode(version)[FindMark(Encode(version), 0) + 5..]
    ensures Import(Encode(Export(qsos, s, version, drafts, now, t)), t) == NormalAll(qsos, t)
  {
    hide Encode, Tokens, Lines, HasMark, FindMark, Records, BuildAll, Import, Export, NormalAll, Created;
    FirstMark(Encode(version));
    var lines, a := Encode(Lines(qsos, s, drafts, t)), Encode(version)[FindMark(Encode(version), 0) + 5..];
    var p, more := Encode("\n" + Created(now)), Encode("<EOH>\n\n") + lines;
    MarkedImport(qsos, s, version, drafts, now, t);
    Associate(a, p, more);
    TokensPass(a, p + more);
    CreatedToken(now, more);
    EndThenLines(lines);
    OnlyReset(Tokens(lines), QsoDate(now) + " " + TimeOn(now));
    LinesRead(qsos, s, drafts, t);
  }

  lemma CreatedToken(now: Time, more: seq<byte>)
    ensures Tokens(Encode("\n" + Created(now)) + more)
      == [Token("CREATED_TIMESTAMP", QsoDate(now) + " " + TimeOn(now))] + Tokens(more)
  {
    hide Encode, Tokens, Field, QsoDate, TimeOn;
    var value := QsoDate(now) + " " + TimeOn(now);
    var f := Field("CREATED_TIMESTAMP", value);
    assert TagName("CREATED_TIMESTAMP");
    assert "\n" + Created(now) == "\n" + f + "\n";
    RestBytes("\n", f, "\n");
    Associate(Encode("\n"), Encode(f) + Encode("\n"), more);
    Associate(Encode(f), Encode("\n"), more);
    TokensChar('\n', Encode(f) + (Encode("\n") + more));
    TokensField("CREATED_TIMESTAMP", value, Encode("\n") + more);
    TokensChar('\n', more);
  }

  lemma OnlyReset(rest: seq<Token>, value: string)
    ensures Records([Token("CREATED_TIMESTAMP", value)] + ([Token("EOH", "")] + rest), map[]) == Records(rest, map[])
  {
    hide Records;
    var r: Record := map["CREATED_TIMESTAMP" := value];
    RecordsStep(Token("CREATED_TIMESTAMP", value), [Token("EOH", "")] + rest, map[], r);
    RecordsStep(Token("EOH", ""), rest, r, map[]);
  }

  // ---- a value of the tail swallows the marker ----

  /** All that the reader takes from the tail and the marker when a value of the tail
      reaches n bytes past it. */
  function TailTokens(h: seq<byte>, more: seq<byte>): seq<Token>
    requires Scan(h).cut.Some? && Scan(h).cut.value.missing <= |more|
  {
    var c := Scan(h).cut.value;
    Scan(h).tokens + [Token(c.tag, Decode(c.got + more[..c.missing]))]
  }

  lemma CutReading(h: seq<byte>, more: seq<byte>)
    requires TagsClose(h) && Scan(h).cut.Some? && Scan(h).cut.value.missing <= |more|
    ensures Tokens(h + more) == TailTokens(h, more) + Tokens(more[Scan(h).cut.value.missing..])
  {
    hide Tokens, Scan, Decode, TagsClose;
    var c := Scan(h).cut.value;
    ScanConcat(h, more);
    Associate(Scan(h).tokens, [Token(c.tag, Decode(c.got + more[..c.missing]))], Tokens(more[c.missing..]));
  }

  lemma MarkerBytes()
    ensures |Encode("<EOH>\n\n")| == 7 && LT !in Encode("<EOH>\n\n")[1..]
  {
    EncodeAscii("<EOH>\n\n");
    var e := Encode("<EOH>\n\n");
    assert forall i :: 1 <= i < 7 ==> e[i] == "<EOH>\n\n"[i] as int && "<EOH>\n\n"[i] != '<';
  }

  lemma WithinFirst(e: seq<byte>, l: seq<byte>, n: nat)
    requires 0 < n <= |e| && LT !in e[1..]
    ensures (e + l)[..n] == e[..n] && (e + l)[n..] == e[n..] + l && LT !in e[n..]
  {
    assert forall i :: n <= i < |e| ==> e[i] == e[1..][i - 1];
  }

  /** The record of the first contact when the record r was left open in front of it. */
  function FirstOn(r: Record, q: Qso, s: Station, t: Tables): Record {
    Put(r, Parts(q, s, t))
  }

  /** The log when a record is left open in front of it: only the first contact sees it. */
  lemma LinesOn(r: Record, qsos: seq<Qso>, s: Station, drafts: bool, t: Tables)
    requires qsos != [] && Strip(qsos[0].callsign) != ""
    ensures Records(Tokens(Encode(Lines(qsos, s, drafts, t))), r)
      == [FirstOn(r, qsos[0], s, t)] + Records(Tokens(Encode(Lines(qsos[1..], s, drafts, t))), map[])
  {
    hide Encode, Tokens, Line, Records, Put, GoodTags, Parts, Strip;
    var parts, more := Parts(qsos[0], s, t), Lines(qsos[1..], s, drafts, t);
    PartsTagged(qsos[0], s, t);
    assert Lines(qsos, s, drafts, t) == Line(parts) + "\n" + more;
    EncodeConcat(Line(parts) + "\n", more);
    EncodeConcat(Line(parts), "\n");
    Associate(Encode(Line(parts)), Encode("\n"), Encode(more));
    TokensLine(parts, Encode("\n") + Encode(more));
    TokensChar('\n', Encode(more));
    RecordsLine(parts, r, Tokens(Encode(more)));
  }

  /** A part that was written is read back, whatever was there before. */
  lemma {:induction false} GetWritten(r: Record, parts: seq<(string, string)>, k: nat, default: string)
    requires Distinct(parts) && k < |parts| && parts[k].1 != ""
    ensures Get(Put(r, parts), parts[k].0, default) == parts[k].1
    decreases k
  {
    var next := if parts[0].1 == "" then r else r[parts[0].0 := parts[0].1];
    if k == 0 {
      Absent(next, parts[1..], parts[0].0);
    } else {
      assert parts[1..][k - 1] == parts[k];
      GetWritten(next, parts[1..], k - 1, default);
    }
  }

  lemma WrittenAt(r: Record, q: Qso, s: Station, t: Tables, k: nat)
    requires k < 19 && Parts(q, s, t)[k].1 != ""
    ensures Get(FirstOn(r, q, s, t), TAGS[k], "") == Parts(q, s, t)[k].1
  {
    hide Parts;
    PartsTagged(q, s, t);
    GetWritten(r, Parts(q, s, t), k, "");
  }

  /** A contact with a callsign is built on top of any record. */
  lemma FirstBuilds(r: Record, q: Qso, s: Station, t: Tables)
    requires Strip(q.callsign) != ""
    ensures BuildQso(FirstOn(r, q, s, t), t).Some?
  {
    hide Strip, Upper, Lower, ExportMode, ImportMode, Band, BandName, MhzText, ParseMhz, QsoDate, TimeOn, ParseDateTime,
      Get, FirstOn;
    StripIdempotent(q.callsign);
    UpperKeeps(Strip(q.callsign));
    StripTrimmed(Upper(Strip(q.callsign)));
    DateTimeRoundTrip(q.time);
    StripTrimmed(QsoDate(q.time));
    StripTrimmed(TimeOn(q.time));
    WrittenAt(r, q, s, t, 0);
    WrittenAt(r, q, s, t, 1);
    WrittenAt(r, q, s, t, 2);
  }

  /** Main result. When a value of the tail swallows the marker, or a part of it, but no
      record: a log comes back if and only if the tail closes no record of its own, and the
      fields it leaves open do not change the first contact. */
  lemma MarkerSwallowed(qsos: seq<Qso>, s: Station, version: string, drafts: bool, now: Time, t: Tables)
    requires HasMark(Encode(version)) && qsos != [] && Strip(qsos[0].callsign) != ""
    requires var cut := Scan(Tail(version, now)).cut; cut.Some? && 1 <= cut.value.missing <= |Encode("<EOH>\n\n")|
    ensures var ts := TailTokens(Tail(version, now), Encode("<EOH>\n\n"));
      Import(Encode(Export(qsos, s, version, drafts, now, t)), t) == NormalAll(qsos, t)
      <==> (&& BuildAll(Closed(ts, map[]), t) == []
            && BuildQso(FirstOn(Open(ts, map[]), qsos[0], s, t), t) == Some(Normal(qsos[0], t)))
  {
    hide Encode, Tokens, Lines, HasMark, Scan, Tail, Records, BuildQso, Closed, Import, Export, TailTokens, Open,
      FirstOn, Normal, Strip;
    var e, lines, h := Encode("<EOH>\n\n"), Encode(Lines(qsos, s, drafts, t)), Tail(version, now);
    var n, rest := Scan(h).cut.value.missing, Encode(Lines(qsos[1..], s, drafts, t));
    MarkedImport(qsos, s, version, drafts, now, t);
    TailCloses(version, now);
    MarkerBytes();
    WithinFirst(e, lines, n);
    CutReading(h, e + lines);
    SameTailTokens(h, e, e + lines);
    TokensPass(e[n..], lines);
    var ts := TailTokens(h, e);
    var r := Open(ts, map[]);
    RecordsConcat(ts, Tokens(lines), map[]);
    LinesOn(r, qsos, s, drafts, t);
    FirstBuilds(r, qsos[0], s, t);
    var first := FirstOn(r, qsos[0], s, t);
    BuildConcat(Closed(ts, map[]), [first] + Records(Tokens(rest), map[]), t);
    BuildConcat([first], Records(Tokens(rest), map[]), t);
    BuildOne(first, t);
    LinesRead(qsos[1..], s, drafts, t);
    ThreePieces(BuildAll(Closed(ts, map[]), t), BuildQso(first, t).value, Normal(qsos[0], t), NormalAll(qsos[1..], t));
  }

  lemma SameTailTokens(h: seq<byte>, e: seq<byte>, more: seq<byte>)
    requires Scan(h).cut.Some? && Scan(h).cut.value.missing <= |e| <= |more|
    requires more[..Scan(h).cut.value.missing] == e[..Scan(h).cut.value.missing]
    ensures TailTokens(h, more) == TailTokens(h, e)
  {}

  lemma BuildOne(r: Record, t: Tables)
    requires BuildQso(r, t).Some?
    ensures BuildAll([r], t) == [BuildQso(r, t).value]
  {
    hide BuildQso;
    assert [r][1..] == [];
  }

  lemma ThreePieces(extra: seq<Qso>, a: Qso, b: Qso, rest: seq<Qso>)
    ensures extra + ([a] + rest) == [b] + rest <==> extra == [] && a == b
  {
    var left, right := extra + ([a] + rest), [b] + rest;
    assert left == right ==> |extra| == 0;
    assert |extra| == 0 ==> left == [a] + rest && left[0] == a && right[0] == b;
  }

  // ---- a value of the tail reaches into the records ----

  /** No token gives a callsign of more than n characters. */
  ghost predicate ShortCalls(tokens: seq<Token>, n: nat) {
    forall i :: 0 <= i < |tokens| && tokens[i].tag == "CALL" ==> |tokens[i].value| <= n
  }

  lemma {:induction false} ShortRecords(tokens: seq<Token>, r: Record, n: nat)
    requires ShortCalls(tokens, n) && |Get(r, "CALL", "")| <= n
    ensures forall i :: 0 <= i < |Records(tokens, r)| ==> |Get(Records(tokens, r)[i], "CALL", "")| <= n
  {
    if tokens != [] {
      var ends := tokens[0].tag == "EOR" || tokens[0].tag == "EOH";
      var next := if ends then map[] else r[tokens[0].tag := tokens[0].value];
      assert forall i :: 0 <= i < |tokens[1..]| ==> tokens[1..][i] == tokens[i + 1];
      ShortRecords(tokens[1..], next, n);
    }
  }

  lemma {:induction false} ShortContacts(records: seq<Record>, t: Tables, n: nat)
    requires forall i :: 0 <= i < |records| ==> |Get(records[i], "CALL", "")| <= n
    ensures forall i :: 0 <= i < |BuildAll(records, t)| ==> |BuildAll(records, t)[i].callsign| <= n
  {
    hide BuildQso;
    if records != [] {
      assert forall i :: 0 <= i < |records[1..]| ==> records[1..][i] == records[i + 1];
      ShortContacts(records[1..], t, n);
      ShortContact(records[0], t);
    }
  }

  lemma ShortContact(r: Record, t: Tables)
    ensures BuildQso(r, t).Some? ==> |BuildQso(r, t).value.callsign| <= |Get(r, "CALL", "")|
  {
    hide Strip, Lower, ImportMode, Band, BandName, ParseMhz, ParseDateTime;
    var before, after := StripParts(Get(r, "CALL", ""));
  }

  lemma {:induction false} ScanIsShort(data: seq<byte>)
    ensures forall i :: 0 <= i < |Scan(data).tokens| ==> |Scan(data).tokens[i].value| <= |data|
    ensures Scan(data).cut.Some? ==> |Scan(data).cut.value.got| <= |data|
    decreases |data|, 0
  {
    hide Classify, AsciiText, Find, ScanAfter;
    var lt := Find(data, LT, 0);
    if lt < |data| {
      var gt := Find(data, GT, lt + 1);
      if gt < |data| {
        ScanAfterIsShort(Classify(AsciiText(data[lt + 1..gt])), data[gt + 1..]);
      }
    }
  }

  lemma {:induction false} ScanAfterIsShort(kind: Kind, rest: seq<byte>)
    ensures forall i :: 0 <= i < |ScanAfter(kind, rest).tokens| ==> |ScanAfter(kind, rest).tokens[i].value| <= |rest|
    ensures ScanAfter(kind, rest).cut.Some? ==> |ScanAfter(kind, rest).cut.value.got| <= |rest|
    decreases |rest|, 1
  {
    hide Scan;
    match kind
    case End(tag) => ScanIsShort(rest);
    case Skip => ScanIsShort(rest);
    case Value(tag, n) =>
      if n <= |rest| {
        ScanIsShort(rest[n..]);
      }
  }

  function As(n: nat): (s: string)
    ensures |s| == n && forall i :: 0 <= i < n ==> s[i] == 'A'
  {
    seq(n, _ => 'A')
  }

  lemma CallOfAs(n: nat)
    requires n > 0
    ensures Strip(As(n)) == As(n) && Upper(As(n)) == As(n)
  {
    StripTrimmed(As(n));
    assert Upper(As(n)) == As(n);
  }

  /** What is left of a record line when its first field lost its beginning. */
  lemma FirstFieldLost(n: nat, k: nat, others: seq<(string, string)>)
    requires 0 < k <= n && GoodTags(others)
    ensures var l := Encode(Line([("CALL", As(n))] + others) + "\n");
      k <= |l| && Tokens(l[k..]) == LineTokens(others)
  {
    hide Encode, Tokens, GoodTags;
    var f, rest := Field("CALL", As(n)), " " + Line(others) + "\n";
    var parts := [("CALL", As(n))] + others;
    assert parts[1..] == others && Line(parts) + "\n" == f + rest;
    EncodeConcat(f, rest);
    OneTag(n);
    OnlyFirst(f);
    TwoSlicesFrom(Encode(f), Encode(rest), k);
    TokensPass(Encode(f)[k..], Encode(rest));
    RestBytes(" ", Line(others), "\n");
    TokensChar(' ', Encode(Line(others)) + Encode("\n"));
    TokensLine(others, Encode("\n"));
    NewlineOnly();
    assert LineTokens(others) + [] == LineTokens(others);
  }

  lemma NewlineOnly()
    ensures Tokens(Encode("\n")) == []
  {
    hide Encode;
    TokensChar('\n', []);
    assert Encode("\n") + [] == Encode("\n");
    NoTokens();
  }

  lemma OneTag(n: nat)
    requires n > 0
    ensures var f := Field("CALL", As(n)); |f| >= n && '<' !in f[1..]
  {
    hide Digits, Upper, Encode;
    assert TagName("CALL");
    var block := FieldStart("CALL", |Encode(As(n))|);
    var f := Field("CALL", As(n));
    assert f == block + As(n);
    assert f[1..] == block[1..] + As(n);
  }

  lemma TwoSlicesFrom(a: seq<byte>, b: seq<byte>, k: nat)
    requires 0 < k <= |a| && forall i :: 0 < i < |a| ==> a[i] != LT
    ensures (a + b)[k..] == a[k..] + b && LT !in a[k..]
  {}

  lemma {:induction false} OtherTags(parts: seq<(string, string)>)
    requires forall i :: 0 <= i < |parts| ==> parts[i].0 != "CALL"
    ensures forall i :: 0 <= i < |LineTokens(parts)| ==> LineTokens(parts)[i].tag != "CALL"
  {
    if parts != [] {
      OtherTags(parts[1..]);
    }
  }

  /** Main result. When a value of the tail reaches into the records, some log of a single
      contact does not come back. */
  lemma RecordSwallowed(s: Station, version: string, drafts: bool, now: Time, t: Tables) returns (q: Qso)
    requires HasMark(Encode(version))
    requires var cut := Scan(Tail(version, now)).cut; cut.Some? && cut.value.missing > |Encode("<EOH>\n\n")|
    ensures Import(Encode(Export([q], s, version, drafts, now, t)), t) != NormalAll([q], t)
  {
    hide Encode, Tokens, Lines, HasMark, Scan, Tail, Records, BuildAll, Import, Export, TailTokens, Normal, Strip,
      Parts, Upper, ShortCalls, LineTokens;
    var h := Tail(version, now);
    var c := Scan(h).cut.value;
    var n := |h| + c.missing;
    q := Qso(TX, As(n + 1), now, 0, "", None, "", "", "", "", "", "", "");
    CallOfAs(n + 1);
    MarkedImport([q], s, version, drafts, now, t);
    TailCloses(version, now);
    MarkerBytes();
    var e, parts := Encode("<EOH>\n\n"), Parts(q, s, t);
    PartsTagged(q, s, t);
    CallPart(q, s, t);
    var others := parts[1..];
    OneRecord(q, s, drafts, t);
    var line := Encode(Line(parts) + "\n");
    assert parts == [("CALL", As(n + 1))] + others;
    FirstFieldLost(n + 1, c.missing - 7, others);
    BeyondFirst(e, line, c.missing);
    CutReading(h, e + line);
    var ts := TailTokens(h, e + line);
    ShortTail(h, e + line, others, n);
    var records := Records(ts + LineTokens(others), map[]);
    ShortRecords(ts + LineTokens(others), map[], n);
    ShortContacts(records, t, n);
    LongCall(q, t);
    assert Import(Encode(Export([q], s, version, drafts, now, t)), t) == BuildAll(records, t);
    assert NormalAll([q], t)[0].callsign == As(n + 1);
  }

  lemma CallPart(q: Qso, s: Station, t: Tables)
    ensures |Parts(q, s, t)| == 19 && Parts(q, s, t)[0] == ("CALL", Upper(Strip(q.callsign)))
    ensures forall i :: 1 <= i < 19 ==> Parts(q, s, t)[i].0 != "CALL"
  {
    hide Strip, Upper, ExportMode, Band, MhzText;
    PartsTagged(q, s, t);
  }

  lemma OneRecord(q: Qso, s: Station, drafts: bool, t: Tables)
    requires Strip(q.callsign) != ""
    ensures Lines([q], s, drafts, t) == Line(Parts(q, s, t)) + "\n"
  {
    hide Line, Parts, Strip;
    assert [q][1..] == [];
    var l := Line(Parts(q, s, t)) + "\n";
    assert l + "" == l;
  }

  lemma BeyondFirst(e: seq<byte>, l: seq<byte>, n: nat)
    requires |e| <= n <= |e| + |l|
    ensures (e + l)[n..] == l[n - |e|..]
  {}

  lemma ShortTail(h: seq<byte>, more: seq<byte>, others: seq<(string, string)>, n: nat)
    requires Scan(h).cut.Some? && Scan(h).cut.value.missing <= |more| && n == |h| + Scan(h).cut.value.missing
    requires forall i :: 0 <= i < |others| ==> others[i].0 != "CALL"
    ensures ShortCalls(TailTokens(h, more) + LineTokens(others), n)
  {
    hide Scan, LineTokens, Decode;
    ScanIsShort(h);
    OtherTags(others);
    var ts := TailTokens(h, more);
    assert forall i :: 0 <= i < |Scan(h).tokens| ==> ts[i] == Scan(h).tokens[i];
  }

  lemma LongCall(q: Qso, t: Tables)
    requires Strip(q.callsign) != ""
    ensures NormalAll([q], t) == [Normal(q, t)] && Normal(q, t).callsign == Upper(Strip(q.callsign))
  {
    hide Strip, Upper, Settle, Band, BandName, Lower;
    assert [q][1..] == [];
  }
}
