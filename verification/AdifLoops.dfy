/** The loops of logbook/adif.py, each against the function that specifies it. */
module AdifLoops {
  import opened Prelude
  import opened Text
  import opened Utf8
  import opened AdifModes
  import opened AdifValues
  import opened AdifCodec

  // ---- the reader ----

  lemma {:induction false} FindShift(data: seq<byte>, b: byte, i: nat, from: nat)
    requires i <= from <= |data|
    ensures Find(data[i..], b, from - i) == Find(data, b, from) - i
    decreases |data| - from
  {
    if from < |data| && data[from] != b {
      FindShift(data, b, i, from + 1);
    }
  }

  /** `_tokenize`, by position. */
  method Tokenize(data: seq<byte>) returns (out: seq<Token>)
    ensures out == Tokens(data)
  {
    hide Classify, Decode, AsciiText, Find, Tokens;
    out := [];
    var i, n := 0, |data|;
    assert data[0..] == data;
    while i < n
      invariant 0 <= i <= n
      invariant out + Tokens(data[i..]) == Tokens(data)
      decreases n - i
    {
      var lt := Find(data, LT, i);
      if lt == n {
        NoMore(data, i);
        return;
      }
      var gt := Find(data, GT, lt + 1);
      if gt == n {
        NoMore(data, i);
        return;
      }
      var kind := Classify(AsciiText(data[lt + 1..gt]));
      Unfold(data, i, lt, gt);
      match kind {
        case End(tag) =>
          assert out + ([Token(tag, "")] + Tokens(data[gt + 1..])) == out + [Token(tag, "")] + Tokens(data[gt + 1..]);
          out := out + [Token(tag, "")];
          i := gt + 1;
        case Skip =>
          i := gt + 1;
        case Value(tag, length) =>
          var next := Min(gt + 1 + length, n);
          var token := Token(tag, Decode(data[gt + 1..next]));
          assert data[gt + 1..][Min(length, n - gt - 1)..] == data[next..];
          assert data[gt + 1..][..Min(length, n - gt - 1)] == data[gt + 1..next];
          assert out + ([token] + Tokens(data[next..])) == out + [token] + Tokens(data[next..]);
          out := out + [token];
          i := next;
      }
    }
    NoMore(data, n);
  }

  lemma NoMore(data: seq<byte>, i: nat)
    requires i <= |data|
    requires Find(data, LT, i) < |data| ==> Find(data, GT, Find(data, LT, i) + 1) == |data|
    ensures Tokens(data[i..]) == []
  {
    hide Classify, AsciiText, TokensAfter, Find;
    FindShift(data, LT, i, i);
    if Find(data, LT, i) < |data| {
      FindShift(data, GT, i, Find(data, LT, i) + 1);
    }
  }

  lemma Unfold(data: seq<byte>, i: nat, lt: nat, gt: nat)
    requires i <= lt < gt < |data| && lt == Find(data, LT, i) && gt == Find(data, GT, lt + 1)
    ensures Tokens(data[i..]) == TokensAfter(Classify(AsciiText(data[lt + 1..gt])), data[gt + 1..])
  {
    hide Classify, AsciiText, TokensAfter, Find;
    FindShift(data, LT, i, i);
    FindShift(data, GT, i, lt + 1);
    assert data[i..][lt - i + 1..gt - i] == data[lt + 1..gt];
    assert data[i..][gt - i + 1..] == data[gt + 1..];
  }

  lemma {:induction false} BuildAllConcat(a: seq<Record>, b: seq<Record>, t: Tables)
    ensures BuildAll(a + b, t) == BuildAll(a, t) + BuildAll(b, t)
  {
    hide BuildQso;
    if a == [] {
      assert a + b == b;
    } else {
      BuildAllConcat(a[1..], b, t);
      assert (a + b)[1..] == a[1..] + b && (a + b)[0] == a[0];
      var head := match BuildQso(a[0], t) case None => [] case Some(q) => [q];
      assert head + (BuildAll(a[1..], t) + BuildAll(b, t)) == head + BuildAll(a[1..], t) + BuildAll(b, t);
    }
  }

  /** `import_adif` on bytes. */
  method ImportAdif(data: seq<byte>, t: Tables) returns (qsos: seq<Qso>)
    ensures qsos == Import(data, t)
  {
    hide BuildQso, Tokens, Body;
    var body := Body(data);
    qsos := [];
    var current: Record := map[];
    var tokens := Tokenize(body);
    var k := 0;
    while k < |tokens|
      invariant k <= |tokens|
      invariant qsos + BuildAll(Records(tokens[k..], current), t) == BuildAll(Records(tokens, map[]), t)
    {
      var token := tokens[k];
      assert tokens[k..][1..] == tokens[k + 1..];
      if token.tag == "EOR" {
        BuildAllConcat([current], Records(tokens[k + 1..], map[]), t);
        qsos := AddRecord(qsos, current, t);
        current := map[];
      } else if token.tag == "EOH" {
        current := map[];
      } else {
        current := current[token.tag := token.value];
      }
      k := k + 1;
    }
    if current != map[] {
      qsos := AddRecord(qsos, current, t);
    }
  }

  /** `_add`: a record that cannot be read costs only itself. */
  method AddRecord(qsos: seq<Qso>, r: Record, t: Tables) returns (more: seq<Qso>)
    ensures more == qsos + BuildAll([r], t)
  {
    hide BuildQso;
    assert [r][1..] == [];
    var q := BuildQso(r, t);
    more := if q.Some? then qsos + [q.value] else qsos;
  }

  // ---- the writer ----

  /** `sep.join(parts)`. */
  function Join(parts: seq<string>, sep: string): string {
    if parts == [] then "" else if |parts| == 1 then parts[0] else parts[0] + sep + Join(parts[1..], sep)
  }

  /** Every part followed by the separator. */
  function Ended(parts: seq<string>, sep: string): string {
    if parts == [] then "" else parts[0] + sep + Ended(parts[1..], sep)
  }

  lemma {:induction false} JoinEnded(parts: seq<string>, sep: string, last: string)
    ensures Join(parts + [last], sep) == Ended(parts, sep) + last
    ensures parts != [] ==> Join(parts, sep) + sep == Ended(parts, sep)
  {
    if parts != [] {
      JoinEnded(parts[1..], sep, last);
      assert (parts + [last])[1..] == parts[1..] + [last];
    }
  }

  lemma {:induction false} EndedSnoc(parts: seq<string>, sep: string, last: string)
    ensures Ended(parts + [last], sep) == Ended(parts, sep) + last + sep
  {
    if parts != [] {
      EndedSnoc(parts[1..], sep, last);
      assert (parts + [last])[1..] == parts[1..] + [last];
      assert parts[0] + sep + (Ended(parts[1..], sep) + last + sep)
        == parts[0] + sep + Ended(parts[1..], sep) + last + sep;
    }
  }

  /** The rendered fields, blanks left out. */
  function Rendered(parts: seq<(string, string)>): seq<string> {
    if parts == [] then []
    else (if Field(parts[0].0, parts[0].1) == "" then [] else [Field(parts[0].0, parts[0].1)]) + Rendered(parts[1..])
  }

  lemma {:induction false} LineIsEnded(parts: seq<(string, string)>)
    ensures Line(parts) == Ended(Rendered(parts), " ") + "<EOR>"
  {
    hide Encode, Digits, Upper;
    if parts != [] {
      LineIsEnded(parts[1..]);
      if parts[0].1 == "" {
        assert Rendered(parts) == Rendered(parts[1..]);
      } else {
        assert Rendered(parts)[1..] == Rendered(parts[1..]);
      }
    }
  }

  /** `format_qso_record`: the non-empty parts joined by blanks. */
  method FormatQsoRecord(q: Qso, s: Station, t: Tables) returns (line: string)
    ensures line == RecordText(q, s, t)
  {
    hide Field, Parts;
    var all := Parts(q, s, t);
    var parts: seq<string> := [];
    assert all[0..] == all;
    for i := 0 to |all|
      invariant parts + Rendered(all[i..]) == Rendered(all)
    {
      assert all[i..][1..] == all[i + 1..];
      var p := Field(all[i].0, all[i].1);
      if p != "" {
        assert parts + ([p] + Rendered(all[i + 1..])) == parts + [p] + Rendered(all[i + 1..]);
        parts := parts + [p];
      } else {
        assert Rendered(all[i..]) == Rendered(all[i + 1..]);
      }
    }
    assert all[|all|..] == [];
    assert parts == Rendered(all);
    LineIsEnded(all);
    DateIsWritten(q, s, t);
    JoinEnded(parts, " ", "<EOR>");
    line := Join(parts, " ") + " <EOR>";
    assert " <EOR>" == " " + "<EOR>";
    assert Join(parts, " ") + (" " + "<EOR>") == Join(parts, " ") + " " + "<EOR>";
  }

  /** A record is never empty: its date is always written. */
  lemma DateIsWritten(q: Qso, s: Station, t: Tables)
    ensures Rendered(Parts(q, s, t)) != []
  {
    hide Encode, Digits, Upper, Strip, ExportMode, Band, MhzText;
    var parts := Parts(q, s, t);
    DateTimeRoundTrip(q.time);
    assert parts[1..][0].1 == QsoDate(q.time);
    assert Rendered(parts[1..]) != [];
  }

  /** `export_adif`: lines joined by newlines. */
  method ExportAdif(qsos: seq<Qso>, s: Station, version: string, drafts: bool, now: Time, t: Tables)
      returns (text: string)
    ensures text == Export(qsos, s, version, drafts, now, t)
  {
    hide Encode, Field, Strip, RecordText, QsoDate, TimeOn, Iso;
    var lines := [
      "Open-SSTV logbook export", "Generated: " + Iso(now), "",
      Field("ADIF_VER", "3.1.5"), Field("PROGRAMID", "Open-SSTV")];
    if version != "" {
      lines := lines + [Field("PROGRAMVERSION", version)];
    }
    lines := lines + [Field("CREATED_TIMESTAMP", QsoDate(now) + " " + TimeOn(now))];
    lines := lines + ["<EOH>"];
    lines := lines + [""];
    HeaderLines(version, now);
    assert Ended(lines, "\n") == Header(version, now) + "<EOH>\n\n";
    for i := 0 to |qsos|
      invariant Ended(lines, "\n") + Lines(qsos[i..], s, drafts, t) == Export(qsos, s, version, drafts, now, t)
    {
      assert qsos[i..][1..] == qsos[i + 1..];
      if drafts || Strip(qsos[i].callsign) != "" {
        var record := FormatQsoRecord(qsos[i], s, t);
        EndedSnoc(lines, "\n", record);
        assert Ended(lines, "\n") + (record + "\n" + Lines(qsos[i + 1..], s, drafts, t))
            == Ended(lines, "\n") + record + "\n" + Lines(qsos[i + 1..], s, drafts, t);
        lines := lines + [record];
      }
    }
    assert qsos[|qsos|..] == [];
    JoinEnded(lines, "\n", "");
    lines := lines + [""];
    text := Join(lines, "\n");
  }

  /** The header lines as `export_adif` lists them. */
  lemma HeaderLines(version: string, now: Time)
    ensures var front := ["Open-SSTV logbook export", "Generated: " + Iso(now), "",
                          Field("ADIF_VER", "3.1.5"), Field("PROGRAMID", "Open-SSTV")];
      var own := if version == "" then front else front + [Field("PROGRAMVERSION", version)];
      Ended(own + [Field("CREATED_TIMESTAMP", QsoDate(now) + " " + TimeOn(now))] + ["<EOH>"] + [""], "\n")
        == Header(version, now) + "<EOH>\n\n"
  {
    hide Field, QsoDate, TimeOn, Iso, Ended;
    var created := Field("CREATED_TIMESTAMP", QsoDate(now) + " " + TimeOn(now));
    var front := ["Open-SSTV logbook export", "Generated: " + Iso(now), "",
                  Field("ADIF_VER", "3.1.5"), Field("PROGRAMID", "Open-SSTV")];
    var own := if version == "" then front else front + [Field("PROGRAMVERSION", version)];
    FrontLines(now);
    EndedSnoc(front, "\n", Field("PROGRAMVERSION", version));
    EndedSnoc(own, "\n", created);
    EndedSnoc(own + [created], "\n", "<EOH>");
    EndedSnoc(own + [created] + ["<EOH>"], "\n", "");
  }

  lemma FrontLines(now: Time)
    ensures Ended(["Open-SSTV logbook export", "Generated: " + Iso(now), "",
                   Field("ADIF_VER", "3.1.5"), Field("PROGRAMID", "Open-SSTV")], "\n")
      == "Open-SSTV logbook export\n" + ("Generated: " + Iso(now) + "\n") + "\n"
         + TagLine("ADIF_VER", "3.1.5") + TagLine("PROGRAMID", "Open-SSTV")
  {
    hide Field, Iso, Ended;
    EndedFive("Open-SSTV logbook export", "Generated: " + Iso(now), "",
              Field("ADIF_VER", "3.1.5"), Field("PROGRAMID", "Open-SSTV"));
  }

  lemma EndedFive(a: string, b: string, c: string, d: string, e: string)
    ensures Ended([a, b, c, d, e], "\n") == a + "\n" + (b + "\n") + (c + "\n") + (d + "\n") + (e + "\n")
  {
    hide Ended;
    EndedNone();
    EndedSnoc([], "\n", a);
    EndedSnoc([a], "\n", b);
    EndedSnoc([a, b], "\n", c);
    EndedSnoc([a, b, c], "\n", d);
    EndedSnoc([a, b, c, d], "\n", e);
    assert [] + [a] == [a] && [a] + [b] == [a, b] && [a, b] + [c] == [a, b, c] && [a, b, c] + [d] == [a, b, c, d];
    assert [a, b, c, d] + [e] == [a, b, c, d, e];
  }

  lemma EndedNone()
    ensures Ended([], "\n") == ""
  {}
}
