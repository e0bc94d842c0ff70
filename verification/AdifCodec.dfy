/** The ADI File Format writer and reader (logbook/adif.py). */
module AdifCodec {
  import opened Prelude
  import opened Text
  import opened Utf8
  import opened AdifModes
  import opened AdifValues

  datatype Direction = RX | TX

  datatype Qso = Qso(
    direction: Direction, callsign: string, time: Time, micros: nat, mode: string, frequency: Option<int>,
    band: string, rsvSent: string, rsvReceived: string, name: string, qth: string, grid: string, comment: string)

  datatype Station = Station(callsign: string, grid: string, qth: string, name: string)

  // ---- bands ----

  /** Lower edge, upper edge and name of each band, in Hz. */
  const BAND_TABLE: seq<(int, int, string)> := [
    (135_700, 137_800, "2190m"), (472_000, 479_000, "630m"), (1_800_000, 2_000_000, "160m"),
    (3_500_000, 4_000_000, "80m"), (5_060_000, 5_450_000, "60m"), (7_000_000, 7_300_000, "40m"),
    (10_100_000, 10_150_000, "30m"), (14_000_000, 14_350_000, "20m"), (18_068_000, 18_168_000, "17m"),
    (21_000_000, 21_450_000, "15m"), (24_890_000, 24_990_000, "12m"), (28_000_000, 29_700_000, "10m"),
    (50_000_000, 54_000_000, "6m"), (70_000_000, 70_500_000, "4m"), (144_000_000, 148_000_000, "2m"),
    (219_000_000, 225_000_000, "1.25m"), (420_000_000, 450_000_000, "70cm"), (902_000_000, 928_000_000, "33cm"),
    (1_240_000_000, 1_300_000_000, "23cm"), (2_300_000_000, 2_450_000_000, "13cm"),
    (3_300_000_000, 3_500_000_000, "9cm"), (5_650_000_000, 5_925_000_000, "6cm"),
    (10_000_000_000, 10_500_000_000, "3cm"), (24_000_000_000, 24_250_000_000, "1.25cm")]

  function LookUp(hz: int, table: seq<(int, int, string)>): string {
    if table == [] then ""
    else if table[0].0 <= hz <= table[0].1 then table[0].2
    else LookUp(hz, table[1..])
  }

  /** `hz_to_band`, "" outside every band. */
  function Band(hz: Option<int>): string {
    if hz.None? || hz.value <= 0 then "" else LookUp(hz.value, BAND_TABLE)
  }

  predicate BandName(s: string) {
    exists i :: 0 <= i < |BAND_TABLE| && BAND_TABLE[i].2 == s
  }

  /** The bands are in ascending order and do not meet. */
  lemma BandsApart(i: nat, j: nat)
    requires i < j < |BAND_TABLE|
    ensures 0 < BAND_TABLE[i].0 <= BAND_TABLE[i].1 < BAND_TABLE[j].0 && BAND_TABLE[j].2 != ""
    decreases j
  {
    if i + 1 < j {
      BandsApart(i, j - 1);
    }
    NextBand(j - 1);
  }

  lemma NextBand(i: nat)
    requires i + 1 < |BAND_TABLE|
    ensures 0 < BAND_TABLE[i].0 <= BAND_TABLE[i].1 < BAND_TABLE[i + 1].0 <= BAND_TABLE[i + 1].1
    ensures BAND_TABLE[i].2 != "" && BAND_TABLE[i + 1].2 != ""
  {}

  predicate InBand(row: (int, int, string), hz: int) {
    row.0 <= hz <= row.1
  }

  lemma {:induction false} LookedUp(hz: int, table: seq<(int, int, string)>) returns (i: nat)
    ensures if i < |table| then InBand(table[i], hz) && LookUp(hz, table) == table[i].2
            else LookUp(hz, table) == "" && forall j :: 0 <= j < |table| ==> !InBand(table[j], hz)
  {
    if table == [] || InBand(table[0], hz) {
      return 0;
    }
    i := LookedUp(hz, table[1..]);
    assert forall j :: 1 <= j < |table| ==> table[j] == table[1..][j - 1];
    i := i + 1;
  }

  /** A frequency inside a band has that band's name. */
  lemma BandIs(hz: int, i: nat)
    requires i < |BAND_TABLE| && InBand(BAND_TABLE[i], hz)
    ensures Band(Some(hz)) == BAND_TABLE[i].2 != ""
  {
    hide LookUp;
    var j := LookedUp(hz, BAND_TABLE);
    if j < i {
      BandsApart(j, i);
    } else if i < j && j < |BAND_TABLE| {
      BandsApart(i, j);
    }
    if i == 0 {
      BandsApart(0, 1);
      NextBand(0);
    } else {
      BandsApart(0, i);
    }
  }

  /** A frequency outside every band has none. */
  lemma NoBand(hz: int)
    requires forall i :: 0 <= i < |BAND_TABLE| ==> !InBand(BAND_TABLE[i], hz)
    ensures Band(Some(hz)) == ""
  {
    hide LookUp;
    var j := LookedUp(hz, BAND_TABLE);
  }

  /** The known band names are exactly those that frequencies have. */
  lemma KnownBands(s: string)
    ensures BandName(s) <==> s != "" && exists hz: int :: Band(Some(hz)) == s
  {
    if BandName(s) {
      var i :| 0 <= i < |BAND_TABLE| && BAND_TABLE[i].2 == s;
      hide Band, LookUp;
      BandFloor(i);
      BandIs(BAND_TABLE[i].0, i);
    }
    if s != "" && exists hz: int :: Band(Some(hz)) == s {
      var hz: int :| Band(Some(hz)) == s;
      hide LookUp, BandName;
      BandIsKnown(hz);
    }
  }

  lemma BandFloor(i: nat)
    requires i < |BAND_TABLE|
    ensures InBand(BAND_TABLE[i], BAND_TABLE[i].0)
  {
    NextBand(if i == 0 then 0 else i - 1);
  }

  lemma BandIsKnown(hz: int)
    requires Band(Some(hz)) != ""
    ensures BandName(Band(Some(hz)))
  {
    hide LookUp;
    var j := LookedUp(hz, BAND_TABLE);
  }

  // ---- writing ----

  /** `_adif_field`: empty values are left out; the length counts bytes. */
  function Field(tag: string, value: string): string {
    if value == "" then "" else "<" + Upper(tag) + ":" + Digits(|Encode(value)|) + ">" + value
  }

  /** The tags and values of one record, in writing order. */
  function Parts(q: Qso, s: Station, t: Tables): seq<(string, string)> {
    var (mode, submode) := ExportMode(q.mode, t);
    var band := if Band(q.frequency) != "" then Band(q.frequency) else q.band;
    var mhz := MhzText(q.frequency);
    [("CALL", Upper(Strip(q.callsign))), ("QSO_DATE", QsoDate(q.time)), ("TIME_ON", TimeOn(q.time)),
     ("MODE", mode), ("SUBMODE", submode), ("BAND", band), ("FREQ", if mhz.Some? then mhz.value else ""),
     ("RST_SENT", q.rsvSent), ("RST_RCVD", q.rsvReceived), ("NAME", q.name), ("QTH", q.qth),
     ("GRIDSQUARE", q.grid), ("COMMENT", q.comment), ("STATION_CALLSIGN", s.callsign), ("MY_GRIDSQUARE", s.grid),
     ("MY_CITY", s.qth), ("OPERATOR", s.callsign), ("MY_NAME", s.name),
     ("APP_OPENSSTV_DIRECTION", if q.direction == RX then "RX" else "")]
  }

  /** The non-empty fields, each followed by a blank, then the end marker. */
  function Line(parts: seq<(string, string)>): string {
    if parts == [] then "<EOR>"
    else if parts[0].1 == "" then Line(parts[1..])
    else Field(parts[0].0, parts[0].1) + " " + Line(parts[1..])
  }

  function RecordText(q: Qso, s: Station, t: Tables): string {
    Line(Parts(q, s, t))
  }

  // ---- reading ----

  datatype Token = Token(tag: string, value: string)

  datatype Kind = End(tag: string) | Skip | Value(tag: string, length: nat)

  /** What the text between `<` and `>` says. */
  function Classify(block: string): Kind {
    var c := IndexOf(block, ':', 0);
    var tag := Upper(Strip(block[..c]));
    if tag == "EOH" || tag == "EOR" then End(tag)
    else if c == |block| then Skip
    else match ParseInt(block[c + 1..IndexOf(block, ':', c + 1)])
      case None => Skip
      case Some(n) => if n < 0 then Skip else Value(tag, n)
  }

  /** `data.find(b, i)`, or |data|. */
  function Find(data: seq<byte>, b: byte, i: nat): (k: nat)
    requires i <= |data|
    ensures i <= k <= |data| && (k < |data| ==> data[k] == b)
    ensures forall j :: i <= j < k ==> data[j] != b
    decreases |data| - i
  {
    if i == |data| || data[i] == b then i else Find(data, b, i + 1)
  }

  const LT: byte := 60
  const GT: byte := 62

  /** `_tokenize`: the tags and values in the data. */
  function Tokens(data: seq<byte>): seq<Token>
    decreases |data|, 0
  {
    var lt := Find(data, LT, 0);
    if lt == |data| then []
    else
      var gt := Find(data, GT, lt + 1);
      if gt == |data| then [] else TokensAfter(Classify(AsciiText(data[lt + 1..gt])), data[gt + 1..])
  }

  /** The tokens of a tag and of the data behind its `>`. */
  function TokensAfter(kind: Kind, rest: seq<byte>): seq<Token>
    decreases |rest|, 1
  {
    match kind
    case End(tag) => [Token(tag, "")] + Tokens(rest)
    case Skip => Tokens(rest)
    case Value(tag, n) => [Token(tag, Decode(rest[..Min(n, |rest|)]))] + Tokens(rest[Min(n, |rest|)..])
  }

  type Record = map<string, string>

  function Get(r: Record, tag: string, default: string): string {
    if tag in r then r[tag] else default
  }

  /** The records that the token stream fills in turn. */
  function Records(tokens: seq<Token>, current: Record): seq<Record> {
    if tokens == [] then (if current == map[] then [] else [current])
    else if tokens[0].tag == "EOR" then [current] + Records(tokens[1..], map[])
    else if tokens[0].tag == "EOH" then Records(tokens[1..], map[])
    else Records(tokens[1..], current[tokens[0].tag := tokens[0].value])
  }

  /** `_build_qso`. */
  function BuildQso(r: Record, t: Tables): Option<Qso> {
    var call := Upper(Strip(Get(r, "CALL", "")));
    var qsoDate, timeOn := Strip(Get(r, "QSO_DATE", "")), Strip(Get(r, "TIME_ON", ""));
    if call == "" || qsoDate == "" || timeOn == "" || ParseDateTime(qsoDate, timeOn).None? then None
    else
      var freqText := Strip(Get(r, "FREQ", ""));
      var frequency := if freqText == "" then None else ParseMhz(freqText);
      var bandRaw := Lower(Strip(Get(r, "BAND", "")));
      var directionRaw := Upper(Strip(Get(r, "APP_OPENSSTV_DIRECTION", "TX")));
      Some(Qso(
        if directionRaw == "RX" then RX else TX, call, ParseDateTime(qsoDate, timeOn).value, 0,
        ImportMode(Get(r, "MODE", ""), Get(r, "SUBMODE", ""), t), frequency,
        if Band(frequency) != "" then Band(frequency) else if BandName(bandRaw) then bandRaw else "",
        Strip(Get(r, "RST_SENT", "")), Strip(Get(r, "RST_RCVD", "")), Strip(Get(r, "NAME", "")),
        Strip(Get(r, "QTH", "")), Strip(Get(r, "GRIDSQUARE", "")), Strip(Get(r, "COMMENT", ""))))
  }

  function BuildAll(records: seq<Record>, t: Tables): seq<Qso> {
    if records == [] then []
    else (match BuildQso(records[0], t) case None => [] case Some(q) => [q]) + BuildAll(records[1..], t)
  }

  // ---- header ----

  function UpperByte(b: byte): byte {
    if 97 <= b <= 122 then b - 32 else b
  }

  /** `<EOH>` in either case starts at i. */
  predicate MarkAt(data: seq<byte>, i: int) {
    0 <= i && i + 5 <= |data| && data[i] == LT && UpperByte(data[i + 1]) == 69 && UpperByte(data[i + 2]) == 79
    && UpperByte(data[i + 3]) == 72 && data[i + 4] == GT
  }

  /** First marker at or after i, or |data|. */
  function FindMark(data: seq<byte>, i: nat): (k: nat)
    requires i <= |data|
    ensures i <= k <= |data| && (k < |data| ==> MarkAt(data, k))
    ensures forall j :: i <= j < k ==> !MarkAt(data, j)
    decreases |data| - i
  {
    if i == |data| || MarkAt(data, i) then i else FindMark(data, i + 1)
  }

  ghost predicate HasMark(data: seq<byte>) {
    exists i :: MarkAt(data, i)
  }

  /** `data.lstrip()` starts with `<`: there is no header. */
  predicate StartsWithTag(data: seq<byte>) {
    data != [] && (data[0] == LT || ((data[0] == 32 || 9 <= data[0] <= 13) && StartsWithTag(data[1..])))
  }

  /** The data after the header. */
  function Body(data: seq<byte>): seq<byte> {
    if StartsWithTag(data) then data
    else
      var k := FindMark(data, 0);
      if k == |data| then data else data[k + 5..]
  }

  /** `import_adif` on bytes. */
  function Import(data: seq<byte>, t: Tables): seq<Qso> {
    BuildAll(Records(Tokens(Body(data)), map[]), t)
  }

  // ---- the document ----

  function Iso(now: Time): string {
    Padded(now.year, 4) + "-" + Padded(now.month, 2) + "-" + Padded(now.day, 2) + "T" + Padded(now.hour, 2) + ":"
    + Padded(now.minute, 2) + ":" + Padded(now.second, 2) + "+00:00"
  }

  /** The time of an export can be read off its header. */
  lemma IsoReads(now: Time)
    ensures var s := Iso(now);
      && |s| == 25 && [s[4], s[7], s[10], s[13], s[16]] == "--T::" && s[19..] == "+00:00"
      && (forall k :: 0 <= k < 19 && k !in {4, 7, 10, 13, 16} ==> IsDigit(s[k]))
      && Number(s[..4]) == now.year && Number(s[5..7]) == now.month && Number(s[8..10]) == now.day
      && Number(s[11..13]) == now.hour && Number(s[14..16]) == now.minute && Number(s[17..19]) == now.second
  {
    hide Number, Padded, IsDigit;
    var s := Iso(now);
    assert s[..4] == Padded(now.year, 4) && s[5..7] == Padded(now.month, 2) && s[8..10] == Padded(now.day, 2);
    assert s[11..13] == Padded(now.hour, 2) && s[14..16] == Padded(now.minute, 2)
           && s[17..19] == Padded(now.second, 2);
    FourDigits(now.year);
    TwoDigits(now.month);
    TwoDigits(now.day);
    TwoDigits(now.hour);
    TwoDigits(now.minute);
    TwoDigits(now.second);
  }

  function TagLine(tag: string, value: string): string {
    Field(tag, value) + "\n"
  }

  /** The header lines before the end-of-header marker. */
  function Header(version: string, now: Time): string {
    "Open-SSTV logbook export\n" + ("Generated: " + Iso(now) + "\n") + "\n"
    + TagLine("ADIF_VER", "3.1.5") + TagLine("PROGRAMID", "Open-SSTV")
    + (if version == "" then "" else TagLine("PROGRAMVERSION", version))
    + TagLine("CREATED_TIMESTAMP", QsoDate(now) + " " + TimeOn(now))
  }

  function Lines(qsos: seq<Qso>, s: Station, drafts: bool, t: Tables): string {
    if qsos == [] then ""
    else if !drafts && Strip(qsos[0].callsign) == "" then Lines(qsos[1..], s, drafts, t)
    else RecordText(qsos[0], s, t) + "\n" + Lines(qsos[1..], s, drafts, t)
  }

  /** `export_adif`. */
  function Export(qsos: seq<Qso>, s: Station, version: string, drafts: bool, now: Time, t: Tables): string {
    Header(version, now) + "<EOH>\n\n" + Lines(qsos, s, drafts, t)
  }
}
