/** Import with duplicate removal (logbook/coordinator.py). */
module LogImport {
  import opened Text
  import opened Utf8
  import opened AdifModes
  import opened AdifValues
  import opened AdifCodec
  import opened AdifRoundTrip

  type Key = (string, Time, string)

  /** `qso_dedupe_key`: callsign, time to the second, compact mode. */
  function QsoKey(q: Qso): Key {
    (Upper(Strip(q.callsign)), q.time, KeyMode(q.mode))
  }

  predicate HasCallsign(q: Qso) {
    Strip(q.callsign) != ""
  }

  /** The keys the store reports: those of rows whose callsign column is not empty. */
  function StoreKeys(rows: seq<Qso>): set<Key> {
    set i | 0 <= i < |rows| && rows[i].callsign != "" :: QsoKey(rows[i])
  }

  /** Entry i is no duplicate: it has no callsign, or it is the first to carry its key. */
  predicate IsNew(qsos: seq<Qso>, seen: set<Key>, i: nat)
    requires i < |qsos|
  {
    !HasCallsign(qsos[i])
    || (QsoKey(qsos[i]) !in seen
        && forall j :: 0 <= j < i && HasCallsign(qsos[j]) ==> QsoKey(qsos[j]) != QsoKey(qsos[i]))
  }

  /** The new ones among the first n entries, in order. */
  function Kept(qsos: seq<Qso>, seen: set<Key>, n: nat): (kept: seq<Qso>)
    requires n <= |qsos|
    ensures |kept| <= n
  {
    if n == 0 then [] else Kept(qsos, seen, n - 1) + (if IsNew(qsos, seen, n - 1) then [qsos[n - 1]] else [])
  }

  class LogbookStore {
    var rows: seq<Qso>

    constructor ()
      ensures rows == []
    {
      rows := [];
    }

    /** `list_dedupe_fields`, as the set of keys built from it. */
    method DedupeKeys() returns (keys: set<Key>)
      ensures keys == StoreKeys(rows)
    {
      keys := {};
      for i := 0 to |rows|
        invariant keys == set k | 0 <= k < i && rows[k].callsign != "" :: QsoKey(rows[k])
      {
        if rows[i].callsign != "" {
          keys := keys + {QsoKey(rows[i])};
        }
      }
    }

    /** `insert_many`: one transaction, all rows or none. */
    method InsertMany(qsos: seq<Qso>) returns (count: nat)
      modifies this
      ensures rows == old(rows) + qsos && count == |qsos|
    {
      rows := rows + qsos;
      return |qsos|;
    }
  }

  class LogbookCoordinator {
    const store: LogbookStore

    constructor (s: LogbookStore)
      ensures store == s
    {
      store := s;
    }

    /** `import_qsos`. */
    method ImportQsos(qsos: seq<Qso>) returns (added: nat, skipped: nat)
      modifies store
      ensures store.rows == old(store.rows) + Kept(qsos, StoreKeys(old(store.rows)), |qsos|)
      ensures added == |Kept(qsos, StoreKeys(old(store.rows)), |qsos|)| && added + skipped == |qsos|
    {
      hide QsoKey, HasCallsign, StoreKeys;
      var seen := store.DedupeKeys();
      ghost var before := seen;
      var toInsert: seq<Qso> := [];
      skipped := 0;
      for i := 0 to |qsos|
        invariant toInsert == Kept(qsos, before, i) && |toInsert| + skipped == i
        invariant forall k ::
          k in seen <==> k in before || exists j :: 0 <= j < i && HasCallsign(qsos[j]) && QsoKey(qsos[j]) == k
      {
        var qso := qsos[i];
        var isSkipped := false;
        if HasCallsign(qso) {
          var key := QsoKey(qso);
          if key in seen {
            skipped := skipped + 1;
            isSkipped := true;
          } else {
            seen := seen + {key};
          }
        }
        if !isSkipped {
          toInsert := toInsert + [qso];
        }
      }
      added := store.InsertMany(toInsert);
    }
  }

  // ---- what an import leaves ----

  /** After an import every entry with a callsign is represented by its key. */
  lemma {:induction false} EveryKeyStored(rows: seq<Qso>, qsos: seq<Qso>, i: nat)
    requires i < |qsos| && HasCallsign(qsos[i])
    ensures QsoKey(qsos[i]) in StoreKeys(rows + Kept(qsos, StoreKeys(rows), |qsos|))
  {
    hide QsoKey, HasCallsign;
    var seen := StoreKeys(rows);
    var kept := Kept(qsos, seen, |qsos|);
    if QsoKey(qsos[i]) in seen {
      var k :| 0 <= k < |rows| && rows[k].callsign != "" && QsoKey(rows[k]) == QsoKey(qsos[i]);
      assert (rows + kept)[k] == rows[k];
    } else {
      var f := FirstWithKey(qsos, i);
      CallsignIsText(qsos[f]);
      var k := KeptAt(qsos, seen, f, |qsos|);
      assert (rows + kept)[|rows| + k] == qsos[f];
    }
  }

  lemma {:induction false} FirstWithKey(qsos: seq<Qso>, i: nat) returns (f: nat)
    requires i < |qsos| && HasCallsign(qsos[i])
    ensures f <= i && HasCallsign(qsos[f]) && QsoKey(qsos[f]) == QsoKey(qsos[i])
    ensures forall j :: 0 <= j < f && HasCallsign(qsos[j]) ==> QsoKey(qsos[j]) != QsoKey(qsos[f])
  {
    hide QsoKey, HasCallsign;
    if j :| 0 <= j < i && HasCallsign(qsos[j]) && QsoKey(qsos[j]) == QsoKey(qsos[i]) {
      f := FirstWithKey(qsos, j);
    } else {
      f := i;
    }
  }

  lemma CallsignIsText(q: Qso)
    requires HasCallsign(q)
    ensures q.callsign != ""
  {
    EmptyText();
  }

  lemma {:induction false} KeptAt(qsos: seq<Qso>, seen: set<Key>, i: nat, n: nat) returns (k: nat)
    requires i < n <= |qsos| && IsNew(qsos, seen, i)
    ensures k < |Kept(qsos, seen, n)| && Kept(qsos, seen, n)[k] == qsos[i]
  {
    hide IsNew;
    if i == n - 1 {
      k := |Kept(qsos, seen, n - 1)|;
    } else {
      k := KeptAt(qsos, seen, i, n - 1);
    }
  }

  /** Nothing new is nothing kept. */
  lemma {:induction false} NothingNew(qsos: seq<Qso>, seen: set<Key>, n: nat)
    requires n <= |qsos|
    requires forall i :: 0 <= i < n ==> HasCallsign(qsos[i]) && QsoKey(qsos[i]) in seen
    ensures Kept(qsos, seen, n) == []
  {
    hide QsoKey, HasCallsign;
    if n > 0 {
      NothingNew(qsos, seen, n - 1);
    }
  }

  /** Main result. Importing the same batch of contacts again adds nothing. */
  lemma SecondImportAddsNothing(rows: seq<Qso>, qsos: seq<Qso>)
    requires forall i :: 0 <= i < |qsos| ==> HasCallsign(qsos[i])
    ensures Kept(qsos, StoreKeys(rows + Kept(qsos, StoreKeys(rows), |qsos|)), |qsos|) == []
  {
    hide QsoKey, HasCallsign, StoreKeys, Kept;
    var after := StoreKeys(rows + Kept(qsos, StoreKeys(rows), |qsos|));
    forall i | 0 <= i < |qsos| ensures QsoKey(qsos[i]) in after {
      EveryKeyStored(rows, qsos, i);
    }
    NothingNew(qsos, after, |qsos|);
  }

  /** No two callsigned rows of a store share a key. */
  ghost predicate KeysDistinct(rows: seq<Qso>) {
    forall i, j :: 0 <= i < j < |rows| && HasCallsign(rows[i]) && HasCallsign(rows[j])
      ==> QsoKey(rows[i]) != QsoKey(rows[j])
  }

  /** An import never introduces a duplicate contact. */
  lemma {:induction false} ImportKeepsDistinct(rows: seq<Qso>, qsos: seq<Qso>, n: nat)
    requires n <= |qsos| && KeysDistinct(rows)
    ensures KeysDistinct(rows + Kept(qsos, StoreKeys(rows), n))
    ensures forall k ::
      0 <= k < |Kept(qsos, StoreKeys(rows), n)| ==> KeptFrom(qsos, n, Kept(qsos, StoreKeys(rows), n)[k])
  {
    hide QsoKey, HasCallsign;
    if n == 0 {
      assert rows + [] == rows;
    } else {
      ImportKeepsDistinct(rows, qsos, n - 1);
      var before, q := Kept(qsos, StoreKeys(rows), n - 1), qsos[n - 1];
      assert forall k :: 0 <= k < |before| ==> KeptFrom(qsos, n, before[k]);
      if IsNew(qsos, StoreKeys(rows), n - 1) {
        assert KeptFrom(qsos, n, q);
        if HasCallsign(q) {
          NewKeyApart(rows, before, qsos, n);
        }
        assert rows + (before + [q]) == (rows + before) + [q];
      } else {
        assert before + [] == before;
      }
    }
  }

  ghost predicate KeptFrom(qsos: seq<Qso>, n: nat, q: Qso) {
    n <= |qsos| && exists j :: 0 <= j < n && qsos[j] == q
  }

  lemma NewKeyApart(rows: seq<Qso>, before: seq<Qso>, qsos: seq<Qso>, n: nat)
    requires 0 < n <= |qsos| && HasCallsign(qsos[n - 1]) && IsNew(qsos, StoreKeys(rows), n - 1)
    requires forall k :: 0 <= k < |before| ==> KeptFrom(qsos, n - 1, before[k])
    ensures forall i :: 0 <= i < |rows + before| && HasCallsign((rows + before)[i]) ==>
      QsoKey((rows + before)[i]) != QsoKey(qsos[n - 1])
  {
    hide QsoKey, HasCallsign;
    forall i | 0 <= i < |rows + before| && HasCallsign((rows + before)[i])
      ensures QsoKey((rows + before)[i]) != QsoKey(qsos[n - 1])
    {
      if i < |rows| {
        CallsignIsText(rows[i]);
        assert QsoKey(rows[i]) in StoreKeys(rows);
      } else {
        assert KeptFrom(qsos, n - 1, before[i - |rows|]);
      }
    }
  }

  // ---- importing our own export ----

  /** The mode keeps its key through a round trip (see AdifModes.KeyKept). */
  predicate KeepsKey(q: Qso) {
    Compact(q.mode) != "" && Trimmed(Compact(q.mode))
  }

  /** The key a row has after an export and import, told from the row alone. */
  function SettledKey(q: Qso): Key {
    (Upper(Strip(q.callsign)), q.time, SettledKeyMode(q.mode))
  }

  lemma NormalKey(q: Qso, t: Tables)
    requires t.Valid() && HasCallsign(q)
    ensures HasCallsign(Normal(q, t)) && QsoKey(Normal(q, t)) == SettledKey(q)
    ensures QsoKey(Normal(q, t)) == QsoKey(q) <==> KeepsKey(q)
    ensures QsoKey(Normal(q, t)).0 == QsoKey(q).0 && QsoKey(Normal(q, t)).1 == QsoKey(q).1
  {
    hide Strip, Upper, Compact, KeyMode, Settle, Trimmed, Band, BandName, Lower;
    StripIdempotent(q.callsign);
    UpperKeeps(Strip(q.callsign));
    StripTrimmed(Upper(Strip(q.callsign)));
    KeyKept(q.mode, t);
    SettleKey(q.mode, t);
  }

  /** Every callsigned row has a representative in the log under the key it will have
      after an export and import. */
  ghost predicate Represented(rows: seq<Qso>) {
    forall i :: 0 <= i < |rows| && HasCallsign(rows[i]) ==> SettledKey(rows[i]) in StoreKeys(rows)
  }

  /** What the export of a log reads back as: the callsigned rows in normal form. */
  lemma {:induction false} NormalAllAre(rows: seq<Qso>, t: Tables)
    ensures forall i :: 0 <= i < |rows| && HasCallsign(rows[i]) ==> Normal(rows[i], t) in NormalAll(rows, t)
    ensures forall q :: q in NormalAll(rows, t) ==> IsNormalOf(q, rows, t)
  {
    hide Normal, Strip;
    if rows != [] {
      NormalAllAre(rows[1..], t);
      forall q | q in NormalAll(rows, t) ensures IsNormalOf(q, rows, t) {
        if q in NormalAll(rows[1..], t) {
          var i :| 0 <= i < |rows[1..]| && HasCallsign(rows[1..][i]) && q == Normal(rows[1..][i], t);
          assert rows[1..][i] == rows[i + 1];
        } else {
          assert HasCallsign(rows[0]) && q == Normal(rows[0], t);
        }
      }
    }
  }

  ghost predicate IsNormalOf(q: Qso, rows: seq<Qso>, t: Tables) {
    exists i :: 0 <= i < |rows| && HasCallsign(rows[i]) && q == Normal(rows[i], t)
  }

  /** A callsigned batch of which nothing is kept is wholly stored. */
  lemma NothingKept(qsos: seq<Qso>, seen: set<Key>, i: nat)
    requires i < |qsos| && HasCallsign(qsos[i]) && Kept(qsos, seen, |qsos|) == []
    ensures QsoKey(qsos[i]) in seen
  {
    hide QsoKey, HasCallsign;
    var f := FirstWithKey(qsos, i);
    if IsNew(qsos, seen, f) {
      var k := KeptAt(qsos, seen, f, |qsos|);
    }
  }

  /** Main result. Exporting a log and importing the file back adds no row if and only if
      every callsigned row is represented under its settled key. */
  lemma ReimportAddsNothingIff(rows: seq<Qso>, s: Station, version: string, drafts: bool, now: Time, t: Tables)
    requires t.Valid() && !HasMark(Encode(version))
    ensures var batch := Import(Encode(Export(rows, s, version, drafts, now, t)), t);
      Kept(batch, StoreKeys(rows), |batch|) == [] <==> Represented(rows)
  {
    hide QsoKey, HasCallsign, SettledKey, StoreKeys, Import, Export, Encode, NormalAll, HasMark, Normal;
    ExportThenImport(rows, s, version, drafts, now, t);
    var batch, seen := NormalAll(rows, t), StoreKeys(rows);
    NormalAllAre(rows, t);
    forall i | 0 <= i < |rows| && HasCallsign(rows[i])
      ensures HasCallsign(Normal(rows[i], t)) && QsoKey(Normal(rows[i], t)) == SettledKey(rows[i])
    {
      NormalKey(rows[i], t);
    }
    if Represented(rows) {
      forall i | 0 <= i < |batch| ensures HasCallsign(batch[i]) && QsoKey(batch[i]) in seen {
        assert IsNormalOf(batch[i], rows, t);
      }
      NothingNew(batch, seen, |batch|);
    }
    if Kept(batch, seen, |batch|) == [] {
      forall i | 0 <= i < |rows| && HasCallsign(rows[i]) ensures SettledKey(rows[i]) in seen {
        var k :| 0 <= k < |batch| && batch[k] == Normal(rows[i], t);
        NothingKept(batch, seen, k);
      }
    }
  }

  /** Main result. It is so for every log in which the mode of each contact keeps its key. */
  lemma ReimportAddsNothing(rows: seq<Qso>, s: Station, version: string, drafts: bool, now: Time, t: Tables)
    requires t.Valid() && !HasMark(Encode(version))
    requires forall i :: 0 <= i < |rows| && HasCallsign(rows[i]) ==> KeepsKey(rows[i])
    ensures var batch := Import(Encode(Export(rows, s, version, drafts, now, t)), t);
      Kept(batch, StoreKeys(rows), |batch|) == []
  {
    hide QsoKey, HasCallsign, KeepsKey, SettledKey, Import, Export, Encode, HasMark;
    ReimportAddsNothingIff(rows, s, version, drafts, now, t);
    forall i | 0 <= i < |rows| && HasCallsign(rows[i]) ensures SettledKey(rows[i]) in StoreKeys(rows) {
      NormalKey(rows[i], t);
      CallsignIsText(rows[i]);
    }
  }

  /** A log of one contact grows on re-import exactly when the mode of that contact does
      not keep its key. */
  lemma ReimportOfOneContact(q: Qso, s: Station, version: string, drafts: bool, now: Time, t: Tables)
    requires t.Valid() && !HasMark(Encode(version)) && HasCallsign(q)
    ensures var batch := Import(Encode(Export([q], s, version, drafts, now, t)), t);
      Kept(batch, StoreKeys([q]), |batch|) == (if KeepsKey(q) then [] else [Normal(q, t)])
  {
    hide QsoKey, KeepsKey, Import, Export, Encode, HasMark, Normal, Strip;
    ExportThenImport([q], s, version, drafts, now, t);
    NormalKey(q, t);
    CallsignIsText(q);
    assert [q][1..] == [];
    var batch := NormalAll([q], t);
    assert batch == [Normal(q, t)];
    assert QsoKey([q][0]) in StoreKeys([q]);
    assert forall k :: k in StoreKeys([q]) ==> k == QsoKey(q);
    assert Kept(batch, StoreKeys([q]), 1)
      == Kept(batch, StoreKeys([q]), 0) + (if IsNew(batch, StoreKeys([q]), 0) then [batch[0]] else []);
  }

  /** A record without MODE is stored without a mode, is exported as MODE=SSTV, and comes
      back as a second row. */
  lemma ReimportOfNoMode(q: Qso, s: Station, version: string, drafts: bool, now: Time, t: Tables)
    requires t.Valid() && !HasMark(Encode(version)) && HasCallsign(q) && q.mode == ImportMode("", "", t)
    ensures var batch := Import(Encode(Export([q], s, version, drafts, now, t)), t);
      Kept(batch, StoreKeys([q]), |batch|) == [Normal(q, t)] && Normal(q, t).mode == "SSTV"
  {
    hide HasCallsign, Import, Export, Encode, HasMark, Trimmed, Plain;
    EmptyText();
    SstvIsPlain();
    PlainModeKey("SSTV", t);
    ReimportOfOneContact(q, s, version, drafts, now, t);
  }

  /** A row whose own key is lost can still be represented by another: no mode and SSTV
      at the same time are one contact to a re-import. */
  lemma RepresentedByAnother(q: Qso)
    requires HasCallsign(q) && q.mode == "SSTV"
    ensures !KeepsKey(q.(mode := "")) && Represented([q.(mode := ""), q])
  {
    hide Strip, Without, Upper;
    var rows := [q.(mode := ""), q];
    EmptyText();
    SstvIsPlain();
    StripTrimmed("SSTV");
    CallsignIsText(q);
    WithoutNothing("SSTV", {' ', '-'});
    assert Compact("") == "" && Compact("SSTV") == "SSTV" && Upper("SSTV") == KeyMode("SSTV");
    assert QsoKey(rows[1]) in StoreKeys(rows);
  }
}
