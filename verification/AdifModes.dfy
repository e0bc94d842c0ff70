/** How a stored mode string becomes an ADIF MODE and SUBMODE and back
    (logbook/adif.py). */
module AdifModes {
  import opened Text

  /** The mode tables: ADIF's Mode enumeration, the parent of every ADIF submode, the
      compact names of the SSTV modes, and the canonical names import prefers. */
  datatype Tables = Tables(modes: set<string>, parents: map<string, string>, sstv: set<string>, names: seq<string>)
  {
    /** What the shipped tables satisfy. */
    ghost predicate Valid() {
      && "SSTV" in modes
      && (forall sub :: sub in parents ==> parents[sub] in modes && Plain(sub))
      && (forall m :: m in modes ==> Plain(m))
      && (forall i :: 0 <= i < |names| ==> Trimmed(names[i]) && SstvKey(names[i]) != "" && SstvKey(names[i]) in sstv
                                           && Upper(names[i]) != "SSTV" && Trimmed(Compact(names[i])))
    }
  }

  /** Upper case, with no stray white space around it, compacted or not. */
  predicate Plain(s: string) {
    Upper(s) == s && Trimmed(s) && Trimmed(Compact(s)) && Compact(s) != ""
  }

  /** `mode_to_submode`. */
  function Compact(mode: string): string {
    Without(mode, {' ', '-'})
  }

  /** The mode part of the import's identity key. */
  function KeyMode(mode: string): string {
    Upper(Compact(mode))
  }

  function SstvKey(mode: string): string {
    Without(KeyMode(mode), {'_'})
  }

  predicate IsSstvMode(mode: string, t: Tables) {
    SstvKey(mode) != "" && SstvKey(mode) in t.sstv
  }

  /** `adif_mode_fields`: the MODE and SUBMODE to export. */
  function ExportMode(mode: string, t: Tables): (string, string) {
    var m := Strip(mode);
    var upper := Upper(m);
    if m == "" || upper == "SSTV" then ("SSTV", "")
    else if IsSstvMode(m, t) then ("SSTV", Compact(m))
    else if upper in t.parents && t.parents[upper] != upper then (t.parents[upper], upper)
    else if upper in t.modes then (upper, "")
    else ("SSTV", Compact(m))
  }

  /** `submode_to_mode`: the first canonical name with the same key, else the text itself. */
  function Canonical(submode: string, names: seq<string>): string {
    if names == [] then submode
    else if KeyMode(names[0]) == KeyMode(submode) then names[0]
    else Canonical(submode, names[1..])
  }

  /** The mode `_build_qso` stores for a record's MODE and SUBMODE. */
  function ImportMode(modeField: string, submodeField: string, t: Tables): string {
    var submode, mode := Strip(submodeField), Strip(modeField);
    var parent := Upper(mode);
    if submode == "" then mode
    else if parent in t.modes && parent != "SSTV" && Upper(submode) !in t.parents then parent
    else Canonical(submode, t.names)
  }

  lemma {:induction false} CanonicalIsName(submode: string, names: seq<string>)
    ensures KeyMode(Canonical(submode, names)) == KeyMode(submode)
    ensures if exists i :: 0 <= i < |names| && KeyMode(names[i]) == KeyMode(submode)
            then Canonical(submode, names) in names else Canonical(submode, names) == submode
  {
    hide KeyMode;
    if names != [] && KeyMode(names[0]) != KeyMode(submode) {
      CanonicalIsName(submode, names[1..]);
      assert forall i :: 1 <= i < |names| ==> names[i] == names[1..][i - 1];
    }
  }

  /** The mode of another program's record, in any case and with white space: its submode under
      the name that is known for it; but where a listed parent mode other than SSTV has a submode
      the tables do not know, the parent. */
  lemma ForeignMode(mode: string, submode: string, t: Tables)
    ensures var m, s, r := Strip(mode), Strip(submode), ImportMode(mode, submode, t);
      if s == "" then r == m
      else if Upper(m) in t.modes - {"SSTV"} && Upper(s) !in t.parents then r == Upper(m)
      else
        && KeyMode(r) == KeyMode(s)
        && if exists i :: 0 <= i < |t.names| && KeyMode(t.names[i]) == KeyMode(s) then r in t.names else r == s
  {
    hide KeyMode, Strip, Upper, Canonical;
    CanonicalIsName(Strip(submode), t.names);
  }

  /** Such a parent is exported again as it was, not as SSTV. */
  lemma ParentSurvives(mode: string, submode: string, t: Tables)
    requires t.Valid() && Strip(submode) != "" && Upper(Strip(submode)) !in t.parents
    requires Upper(Strip(mode)) in t.modes && Upper(Strip(mode)) != "SSTV" && !IsSstvMode(Upper(Strip(mode)), t)
    requires Upper(Strip(mode)) !in t.parents
    ensures ExportMode(ImportMode(mode, submode, t), t) == (Upper(Strip(mode)), "")
  {
    hide KeyMode, Canonical, IsSstvMode, Compact;
    var p := Upper(Strip(mode));
    ForeignMode(mode, submode, t);
    assert Plain(p);
    StripTrimmed(p);
    NotBlank(p);
  }

  lemma NotBlank(p: string)
    requires Plain(p)
    ensures p != ""
  {}

  /** The mode after an export and an import. */
  function Settle(mode: string, t: Tables): string {
    ImportMode(ExportMode(mode, t).0, ExportMode(mode, t).1, t)
  }

  // ---- compact forms ----

  lemma CompactUpper(s: string)
    ensures Compact(Upper(s)) == KeyMode(s) && KeyMode(Upper(s)) == KeyMode(s)
  {
    WithoutUpper(s, {' ', '-'});
    UpperKeeps(Compact(s));
  }

  lemma CompactIdempotent(s: string)
    ensures Compact(Compact(s)) == Compact(s) && Compact(Strip(Compact(s))) == Strip(Compact(s))
    ensures KeyMode(Strip(Compact(s))) == Upper(Strip(Compact(s)))
  {
    var c := Compact(s);
    WithoutFree(s, {' ', '-'});
    WithoutNothing(c, {' ', '-'});
    var before, after := StripParts(c);
    forall i | 0 <= i < |Strip(c)| ensures Strip(c)[i] !in {' ', '-'} {
      assert Strip(c)[i] == c[|before| + i];
    }
    WithoutNothing(Strip(c), {' ', '-'});
  }

  lemma CompactConcat(s: string, t: string)
    ensures Compact(s + t) == Compact(s) + Compact(t)
  {
    WithoutConcat(s, t, {' ', '-'});
  }

  /** Stripping before or after compacting leaves the same text. */
  lemma StripCompactStrip(s: string)
    ensures Strip(Compact(Strip(s))) == Strip(Compact(s))
    ensures Trimmed(Compact(s)) ==> Compact(Strip(s)) == Compact(s)
  {
    hide Compact, Strip, Without;
    var before, after := StripParts(s);
    var m := Strip(s);
    CompactConcat(before + m, after);
    CompactConcat(before, m);
    SpaceStays(before);
    SpaceStays(after);
    var b, c, a := Compact(before), Compact(m), Compact(after);
    assert Compact(s) == b + c + a;
    var b', a' := StripParts(c);
    assert b + c + a == (b + b') + Strip(c) + (a' + a);
    StripAround(b + b', Strip(c), a' + a);
    if Trimmed(Compact(s)) {
      StripTrimmed(Compact(s));
      assert |b| + |b'| + |a'| + |a| == 0;
      assert b + c + a == c;
    }
  }

  lemma SpaceStays(s: string)
    requires AllSpace(s)
    ensures AllSpace(Compact(s))
  {
    WithoutFree(s, {' ', '-'});
    var c := Compact(s);
    forall i | 0 <= i < |c| ensures IsSpace(c[i]) {
      var j :| 0 <= j < |s| && s[j] == c[i];
    }
  }

  lemma {:induction false} CanonicalKey(submode: string, names: seq<string>)
    ensures KeyMode(Canonical(submode, names)) == KeyMode(submode)
    ensures Canonical(submode, names) == submode || Canonical(submode, names) in names
  {
    if names != [] && KeyMode(names[0]) != KeyMode(submode) {
      CanonicalKey(submode, names[1..]);
    }
  }

  lemma CanonicalTwice(submode: string, names: seq<string>)
    ensures Canonical(Canonical(submode, names), names) == Canonical(submode, names)
  {
    var r := Canonical(submode, names);
    CanonicalKey(submode, names);
    if r != submode {
      CanonicalByKey(r, submode, names);
    }
  }

  /** A name is found by every text that shares its key. */
  lemma {:induction false} CanonicalByKey(a: string, b: string, names: seq<string>)
    requires KeyMode(a) == KeyMode(b) && a in names
    ensures Canonical(a, names) == Canonical(b, names)
  {
    if KeyMode(names[0]) != KeyMode(a) {
      CanonicalByKey(a, b, names[1..]);
    }
  }

  lemma SstvIsPlain()
    ensures Plain("SSTV") && KeyMode("SSTV") == "SSTV"
  {
    WithoutNothing("SSTV", {' ', '-'});
    assert Upper("SSTV") == "SSTV";
  }

  // ---- main results ----

  /** The exported MODE is always in the enumeration. */
  lemma ExportedModeListed(mode: string, t: Tables)
    requires t.Valid()
    ensures ExportMode(mode, t).0 in t.modes
  {}

  /** A submode written beside MODE=SSTV comes back under its key, or not at all. */
  lemma SstvSubmodeKey(c: string, t: Tables)
    requires t.Valid() && Compact(c) == c
    ensures KeyMode(ImportMode("SSTV", c, t)) == if Strip(c) == "" then "SSTV" else Upper(Strip(c))
  {
    SstvIsPlain();
    StripTrimmed("SSTV");
    CompactIdempotent(c);
    CanonicalKey(Strip(c), t.names);
  }

  /** The mode part of the identity key after an export and import, told from the stored
      mode alone. */
  function SettledKeyMode(mode: string): string {
    var k := Strip(Compact(mode));
    if k == "" then "SSTV" else Upper(k)
  }

  /** What one export and import does to the identity key of any mode. */
  lemma SettleKey(mode: string, t: Tables)
    requires t.Valid()
    ensures KeyMode(Settle(mode, t)) == SettledKeyMode(mode)
  {
    hide Strip, Compact, Canonical, Without, Trimmed, IsSstvMode, ImportMode;
    var m := Strip(mode);
    var c, upper := Compact(m), Upper(m);
    StripCompactStrip(mode);
    SstvIsPlain();
    StripIdempotent(mode);
    CompactIdempotent(m);
    CompactUpper(m);
    UpperKeeps(m);
    UpperKeeps(c);
    if m == "" || upper == "SSTV" {
      PlainModeKey("SSTV", t);
      assert m == "" ==> Strip(c) == "" by { EmptyText(); }
      assert upper == "SSTV" ==> Strip(c) == c by { StripTrimmed(c); }
    } else if !IsSstvMode(m, t) && upper in t.parents && t.parents[upper] != upper {
      StripTrimmed(c);
      PlainSubmodeKey(t.parents[upper], upper, t);
    } else if !IsSstvMode(m, t) && upper in t.modes {
      StripTrimmed(c);
      PlainModeKey(upper, t);
    } else {
      SstvSubmodeKey(c, t);
    }
  }

  lemma EmptyText()
    ensures Compact("") == "" && Strip("") == ""
  {}

  lemma EmptyKey()
    ensures KeyMode("") == "" && SstvKey("") == ""
  {}

  lemma PlainModeKey(mode: string, t: Tables)
    requires Plain(mode)
    ensures ImportMode(mode, "", t) == mode
  {
    StripTrimmed(mode);
  }

  lemma PlainSubmodeKey(mode: string, submode: string, t: Tables)
    requires Plain(submode) && submode in t.parents
    ensures ImportMode(mode, submode, t) == Canonical(submode, t.names)
    ensures KeyMode(ImportMode(mode, submode, t)) == KeyMode(submode)
  {
    StripTrimmed(submode);
    CanonicalKey(submode, t.names);
  }

  /** Main result. An export and import keeps the identity key of a mode exactly when
      its compact form is not empty and has no white space at its ends. */
  lemma KeyKept(mode: string, t: Tables)
    requires t.Valid()
    ensures KeyMode(Settle(mode, t)) == KeyMode(mode) <==> Compact(mode) != "" && Trimmed(Compact(mode))
  {
    hide Compact, Settle;
    var c := Compact(mode);
    SettleKey(mode, t);
    var before, after := StripParts(c);
    UpperKeeps(c);
    SstvIsPlain();
    if Trimmed(c) {
      StripTrimmed(c);
    } else {
      assert |Strip(c)| < |c|;
    }
  }

  /** What a mode can be after one round. */
  ghost predicate Settled(r: string, t: Tables) {
    || r == "SSTV"
    || (r in t.names && Canonical(r, t.names) == r)
    || (Plain(r) && r != "SSTV" && !IsSstvMode(r, t) && Canonical(r, t.names) == r
        && r in t.parents && t.parents[r] != r)
    || (Plain(r) && r != "SSTV" && !IsSstvMode(r, t) && (r in t.parents ==> t.parents[r] == r) && r in t.modes)
  }

  /** A submode no table names, kept as written. */
  ghost predicate Verbatim(r: string, t: Tables) {
    r != "" && Trimmed(r) && Compact(r) == r && Canonical(r, t.names) == r
  }

  lemma KeptSubmode(c: string, t: Tables)
    requires t.Valid() && Compact(c) == c
    ensures Settled(ImportMode("SSTV", c, t), t) || Verbatim(ImportMode("SSTV", c, t), t)
  {
    SstvIsPlain();
    StripTrimmed("SSTV");
    StripIdempotent(c);
    CompactIdempotent(c);
    CanonicalKey(Strip(c), t.names);
    CanonicalTwice(Strip(c), t.names);
  }

  lemma {:induction false} FirstRound(mode: string, t: Tables)
    requires t.Valid()
    ensures Settled(Settle(mode, t), t) || Verbatim(Settle(mode, t), t)
  {
    hide Strip, Compact, Canonical, Without, Trimmed, ImportMode, Verbatim, KeyMode;
    var m := Strip(mode);
    var c, upper := Compact(m), Upper(m);
    SstvIsPlain();
    CompactIdempotent(m);
    CompactUpper(m);
    UpperKeeps(m);
    if m == "" || upper == "SSTV" {
      PlainModeKey("SSTV", t);
    } else if !IsSstvMode(m, t) && upper in t.parents && t.parents[upper] != upper {
      PlainSubmodeKey(t.parents[upper], upper, t);
      CanonicalKey(upper, t.names);
      CanonicalTwice(upper, t.names);
    } else if !IsSstvMode(m, t) && upper in t.modes {
      PlainModeKey(upper, t);
    } else {
      KeptSubmode(c, t);
    }
  }

  lemma SettledStays(r: string, t: Tables)
    requires t.Valid() && Settled(r, t)
    ensures Settle(r, t) == r
  {
    hide Strip, Compact, Canonical, Without, Trimmed, ImportMode, KeyMode;
    SstvIsPlain();
    EmptyText();
    StripTrimmed(r);
    if r == "SSTV" {
      PlainModeKey(r, t);
    } else if r in t.names {
      NameStays(r, t);
    } else if r in t.parents && t.parents[r] != r {
      PlainSubmodeKey(t.parents[r], r, t);
    } else {
      PlainModeKey(r, t);
    }
  }

  lemma NameStays(r: string, t: Tables)
    requires t.Valid() && r in t.names && Canonical(r, t.names) == r
    ensures Settle(r, t) == r
  {
    hide Without, Canonical;
    var c := Compact(r);
    EmptyText();
    EmptyKey();
    StripTrimmed(r);
    StripTrimmed(c);
    StripTrimmed("SSTV");
    SstvIsPlain();
    CompactIdempotent(r);
    CanonicalByKey(r, c, t.names);
  }

  lemma VerbatimSettles(r: string, t: Tables)
    requires t.Valid() && Verbatim(r, t)
    ensures Settle(r, t) == r || Settled(Settle(r, t), t)
  {
    hide Strip, Compact, Canonical, Without, Trimmed, ImportMode, KeyMode;
    var upper := Upper(r);
    SstvIsPlain();
    StripTrimmed(r);
    CompactUpper(r);
    UpperKeeps(r);
    if upper == "SSTV" {
      PlainModeKey("SSTV", t);
    } else if !IsSstvMode(r, t) && upper in t.parents && t.parents[upper] != upper {
      PlainSubmodeKey(t.parents[upper], upper, t);
      CanonicalKey(upper, t.names);
      CanonicalTwice(upper, t.names);
    } else if !IsSstvMode(r, t) && upper in t.modes {
      PlainModeKey(upper, t);
    } else {
      KeptAsIs(r, t);
    }
  }

  lemma KeptAsIs(r: string, t: Tables)
    requires Verbatim(r, t)
    ensures ImportMode("SSTV", r, t) == r
  {
    SstvIsPlain();
    StripTrimmed("SSTV");
    StripTrimmed(r);
  }

  /** Main result. After two rounds of export and import a mode never changes again. */
  lemma SettlesInTwo(mode: string, t: Tables)
    requires t.Valid()
    ensures Settle(Settle(Settle(mode, t), t), t) == Settle(Settle(mode, t), t)
  {
    hide Settle, Settled, Verbatim;
    var r := Settle(mode, t);
    FirstRound(mode, t);
    if Settled(r, t) {
      SettledStays(r, t);
    } else {
      VerbatimSettles(r, t);
      if Settled(Settle(r, t), t) {
        SettledStays(Settle(r, t), t);
      }
    }
  }

  /** One round is not enough: "ft-8" is first kept as the unknown submode "ft8", which
      the next export recognises as the mode FT8. */
  lemma OneRoundIsNotEnough(t: Tables)
    requires t.Valid() && forall i :: 0 <= i < |t.names| ==> KeyMode(t.names[i]) != "FT8"
    requires "FT8" in t.modes && "FT8" !in t.parents && "FT8" !in t.sstv && "FT-8" !in t.parents && "FT-8" !in t.modes
    ensures Settle("ft-8", t) == "ft8" && Settle("ft8", t) == "FT8"
  {
    hide Strip, Compact, Without, Upper, Trimmed, Plain;
    SstvIsPlain();
    StripTrimmed("SSTV");
    Ft8Texts();
    StripTrimmed("ft-8");
    StripTrimmed("ft8");
    StripTrimmed("FT8");
    CompactUpper("ft-8");
    CompactUpper("ft8");
    NotNamed("ft8", t.names);
    assert !IsSstvMode("ft-8", t) && !IsSstvMode("ft8", t);
    assert ExportMode("ft-8", t) == ("SSTV", "ft8") && ExportMode("ft8", t) == ("FT8", "");
    PlainModeKey("FT8", t);
  }

  lemma {:induction false} NotNamed(submode: string, names: seq<string>)
    requires forall i :: 0 <= i < |names| ==> KeyMode(names[i]) != KeyMode(submode)
    ensures Canonical(submode, names) == submode
  {
    if names != [] {
      NotNamed(submode, names[1..]);
    }
  }

  lemma Ft8Texts()
    ensures Upper("ft-8") == "FT-8" && Upper("ft8") == "FT8" && Plain("FT8")
    ensures Compact("ft-8") == "ft8" && Compact("ft8") == "ft8" && Without("FT8", {'_'}) == "FT8"
    ensures Trimmed("ft-8") && Trimmed("ft8") && Trimmed("FT8")
  {
    hide Without, Upper;
    Ft8Upper();
    Ft8Compact();
    WithoutNothing("ft8", {' ', '-'});
    WithoutNothing("FT8", {' ', '-'});
    WithoutNothing("FT8", {'_'});
  }

  lemma Ft8Upper()
    ensures Upper("ft-8") == "FT-8" && Upper("ft8") == "FT8" && Upper("FT8") == "FT8"
  {}

  lemma Ft8Compact()
    ensures Compact("ft-8") == "ft8"
  {
    hide Without;
    assert "ft-8" == "ft" + ("-" + "8") && "ft8" == "ft" + ("" + "8");
    WithoutConcat("ft", "-" + "8", {' ', '-'});
    WithoutConcat("-", "8", {' ', '-'});
    WithoutNothing("ft", {' ', '-'});
    WithoutNothing("8", {' ', '-'});
    HyphenGone();
  }

  lemma HyphenGone()
    ensures Without("-", {' ', '-'}) == ""
  {}

  /** A compact form that is merely non-empty does not keep the key: a tab in front of
      the mode is lost on the way, and the re-imported row looks new. */
  lemma TabbedModeLosesKey(t: Tables)
    requires t.Valid()
    ensures Compact("\tSSTV") != "" && KeyMode(Settle("\tSSTV", t)) != KeyMode("\tSSTV")
  {
    hide Settle, Compact, KeyMode, Trimmed;
    KeyKept("\tSSTV", t);
    TabStays();
  }

  lemma TabStays()
    ensures Compact("\tSSTV") != "" && !Trimmed(Compact("\tSSTV"))
  {
    WithoutNothing("\tSSTV", {' ', '-'});
  }

  lemma PlainWord(s: string)
    requires s != "" && forall i :: 0 <= i < |s| ==> 'A' <= s[i] <= 'Z' || '0' <= s[i] <= '9'
    ensures Plain(s)
  {
    WithoutNothing(s, {' ', '-'});
    assert Upper(s) == s;
  }

  /** An excerpt of the shipped tables, to show that what is required of them can hold. */
  lemma ExcerptOfTables()
    ensures Tables({"SSTV", "MFSK", "FT8"}, map["FT4" := "MFSK"], {"MARTINM1"}, ["Martin M1"]).Valid()
  {
    hide Plain, Compact, SstvKey, Upper, Trimmed;
    Words();
    MartinKey();
    KeyIsNotEmpty("MARTINM1", 'M');
  }

  lemma Words()
    ensures Plain("SSTV") && Plain("MFSK") && Plain("FT8") && Plain("FT4")
  {
    hide Plain;
    PlainWord("SSTV");
    PlainWord("MFSK");
    PlainWord("FT8");
    PlainWord("FT4");
  }

  lemma KeyIsNotEmpty(s: string, c: char)
    requires c in s
    ensures s != ""
  {}

  lemma MartinKey()
    ensures Compact("Martin M1") == "MartinM1" && SstvKey("Martin M1") == "MARTINM1"
    ensures Upper("Martin M1") != "SSTV" && Trimmed("Martin M1") && Trimmed("MartinM1")
  {
    hide Without;
    assert "Martin M1" == "Martin" + (" " + "M1") && "MartinM1" == "Martin" + ("" + "M1");
    CompactConcat("Martin", " " + "M1");
    CompactConcat(" ", "M1");
    WithoutNothing("Martin", {' ', '-'});
    WithoutNothing("M1", {' ', '-'});
    BlankGone();
    assert Upper("MartinM1") == "MARTINM1";
    WithoutNothing("MARTINM1", {'_'});
  }

  lemma BlankGone()
    ensures Compact(" ") == ""
  {}
}
