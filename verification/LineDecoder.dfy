/** The live decoder's bookkeeping: a trimmed audio buffer, sync candidates in
    absolute positions, and lines decoded one after the other
    (`IncrementalDecoderBase` of core/incremental_decoder.py).

    The signal processing enters as inputs: `found` is what the sync detector
    reports for the searched tail, and a decoded line is its audio window. */
module LineDecoder {
  import opened Prelude
  import opened Rounding
  import opened SyncGrid
  import opened GridSafety
  import opened PruneSafety
  import opened SyncHarvest

  const FILTER_MARGIN := 4096
  const READY_SLACK_SAMPLES := 128
  const MIN_BANDPASS_SAMPLES := 256

  /** Keep the candidates at or after a position, in order. */
  function From(syncs: seq<int>, lo: int): (r: seq<int>)
    ensures forall s :: s in r <==> s in syncs && s >= lo
  {
    if syncs == [] then [] else (if syncs[0] >= lo then [syncs[0]] else []) + From(syncs[1..], lo)
  }

  /** `x[i:j]` with Python's clamping of out-of-range bounds, for i >= 0. */
  function Slice(x: seq<real>, i: nat, j: int): seq<real> {
    var hi := if j < 0 then 0 else if j > |x| then |x| else j;
    if i >= hi then [] else x[i..hi]
  }

  // ---- the decoder ----

  /** A decoded line: its grid index, its sync (absolute) and its audio window. */
  datatype Line = Line(index: nat, sync: int, start: int, window: seq<real>)

  /** Some grid error can be absorbed by the filter padding. */
  ghost predicate WithinMargin(s: Signal) {
    2.0 * GridError(s) + 1.0 <= FILTER_MARGIN as real
  }

  /** The candidates of one feed, where the buffer began and the audio ended, and the lines
      decoded after it. */
  datatype Heard = Heard(cands: seq<int>, origin: int, end: int, used: nat)

  function Joined(chunks: seq<seq<real>>): seq<real> {
    if chunks == [] then [] else Joined(chunks[..|chunks| - 1]) + chunks[|chunks| - 1]
  }

  lemma NoneJoined()
    ensures Joined([]) == []
  {}

  lemma JoinedStep(chunks: seq<seq<real>>, n: nat)
    requires n < |chunks|
    ensures Joined(chunks[..n + 1]) == Joined(chunks[..n]) + chunks[n]
  {
    assert chunks[..n + 1][..n] == chunks[..n];
  }

  /** The line's sync is that of its own scan line, but for the error of the grid. */
  ghost predicate OnItsLine(s: Signal, l: Line) {
    Abs(l.sync as real - s.Line(l.index)) <= GridError(s)
  }

  ghost predicate CutFrom(l: Line, stream: seq<real>, startAbs: int) {
    && startAbs <= l.start && l.start + |l.window| <= startAbs + |stream|
    && l.window == stream[l.start - startAbs..l.start - startAbs + |l.window|]
  }

  class IncrementalDecoder {
    const lineSamp: real
    const gridLen: nat
    const visEnd: int
    const line0: real
    const startAbs: int
    /** Samples needed before the sync, FILTER_MARGIN of padding included. */
    const lookback: nat
    const lookahead: nat
    const readyPostSync: int

    var buf: seq<real>
    var bufStart: int
    var totalFed: nat
    var syncs: seq<int>
    var lastSearchEnd: int
    var consumed: nat

    /** Everything fed so far, and every line decoded so far. */
    ghost var stream: seq<real>
    ghost var lines: seq<Line>
    /** The stall cap has dropped audio. */
    ghost var trimmed: bool

    constructor (lineSamp: real, gridLen: nat, visEnd: int, line0: real, startAbs: int, lookback: nat, lookahead: nat,
        readyPostSync: int)
      requires lineSamp > 0.0 && lookback >= FILTER_MARGIN
      ensures Valid() && stream == [] && lines == [] && !trimmed && syncs == []
      ensures this.lineSamp == lineSamp && this.gridLen == gridLen && this.visEnd == visEnd && this.line0 == line0
      ensures this.startAbs == startAbs && this.lookback == lookback && this.lookahead == lookahead
        && this.readyPostSync == readyPostSync
    {
      this.lineSamp, this.gridLen, this.visEnd, this.line0 := lineSamp, gridLen, visEnd, line0;
      this.startAbs, this.lookback, this.lookahead, this.readyPostSync := startAbs, lookback, lookahead, readyPostSync;
      buf, bufStart, totalFed, syncs, lastSearchEnd, consumed := [], startAbs, 0, [], startAbs, 0;
      stream, lines, trimmed := [], [], false;
    }

    /** The retained audio is exactly the end of the stream. */
    ghost predicate Suffix()
      reads `buf, `bufStart, `totalFed, `stream
    {
      && totalFed == |stream|
      && startAbs <= bufStart <= startAbs + |stream|
      && buf == stream[bufStart - startAbs..]
    }

    /** Grid positions 0, 1, 2, ... have been decoded once each, every window cut
        from the stream at its absolute position. */
    ghost predicate LinesInOrder()
      reads `consumed, `lines, `stream
    {
      && consumed == |lines| <= gridLen
      && forall i :: 0 <= i < |lines| ==> lines[i].index == i && CutFrom(lines[i], stream, startAbs)
    }

    function StallCap(): int {
      Trunc(gridLen as real * lineSamp * 1.5) + lookback + FILTER_MARGIN
    }

    /** A buffer is cut only when it holds more than one and a half images, the look-back and
        the filter padding. */
    lemma StallMeansOverdue(n: int)
      requires lineSamp > 0.0
      ensures n <= StallCap() <==> (n - lookback - FILTER_MARGIN) as real <= 1.5 * gridLen as real * lineSamp
    {
      ImageAndHalf(gridLen as real, lineSamp);
    }

    static lemma ImageAndHalf(lines: real, line: real)
      requires lines >= 0.0 && line > 0.0
      ensures lines * line * 1.5 == 1.5 * lines * line >= 0.0
    {}

    ghost predicate Valid()
      reads this
    {
      && lineSamp > 0.0 && lookback >= FILTER_MARGIN
      && Suffix() && LinesInOrder() && Sorted(syncs)
    }

    function CurrentAbs(): int
      reads `buf, `bufStart
    {
      bufStart + |buf|
    }

    /** The grid of the present candidates, buffer-relative. */
    function BufGrid(): seq<int>
      reads `syncs, `bufStart
    {
      Grid(Relative(syncs, bufStart), lineSamp, gridLen, Some(line0 - bufStart as real))
    }

    /** The part of the buffer that is searched for syncs, and where it starts. */
    function SearchStart(): (r: nat)
      reads `lastSearchEnd, `bufStart
    {
      var from := Max(0, Max(visEnd, lastSearchEnd - Trunc(lineSamp)) - bufStart);
      from - Min(FILTER_MARGIN, from)
    }

    /** Absolute positions of what the detector found in the searched tail. */
    function Located(found: seq<int>): (r: seq<int>)
      reads `lastSearchEnd, `bufStart
      ensures |r| == |found|
    {
      var tailAbs := bufStart + SearchStart();
      seq(|found|, i requires 0 <= i < |found| => tailAbs + found[i])
    }

    /** The candidates after a search of a buffer of n samples. */
    function HarvestedIn(n: nat, found: seq<int>): seq<int>
      reads `lastSearchEnd, `bufStart, `syncs
    {
      if n - SearchStart() < MIN_BANDPASS_SAMPLES then syncs else Sort(MergeAll(syncs, Located(found)))
    }

    function Harvested(found: seq<int>): seq<int>
      reads `lastSearchEnd, `bufStart, `buf, `syncs
    {
      HarvestedIn(|buf|, found)
    }

    /** A found pulse is placed at the stream's own position of the sample it was found at. */
    lemma LocatedInStream(found: seq<int>, i: nat)
      requires Suffix() && i < |found| && 0 <= found[i] < |buf| - SearchStart()
      ensures var at := Located(found)[i] - startAbs;
        0 <= at < |stream| && stream[at] == buf[SearchStart()..][found[i]]
    {}

    /** A search puts every pulse it found where the stream has it, and keeps what it did not
        find again; too short a tail is not searched. */
    lemma HarvestMeans(n: nat, found: seq<int>, pulses: set<int>)
      requires Spaced(pulses) && Sightings(syncs, pulses) && OncePerPulse(syncs)
      requires Sightings(Located(found), pulses) && OncePerPulse(Located(found))
      ensures var at, r := bufStart + SearchStart(), HarvestedIn(n, found);
        if n < SearchStart() + MIN_BANDPASS_SAMPLES then r == syncs
        else
          && Sorted(r) && OncePerPulse(r) && Sightings(r, pulses)
          && (forall i :: 0 <= i < |found| ==> at + found[i] in r)
          && (forall x :: x in syncs && !SeenIn(x, Located(found)) ==> x in r)
          && (forall x :: x in r ==> Finds(found, at, x) || (x in syncs && !SeenIn(x, Located(found))))
    {
      hide SamePulse, Sighting, Sightings, OncePerPulse, Spaced, Sort, MergeAll, Sorted, SearchStart, SeenIn, Finds;
      var at, located := bufStart + SearchStart(), Located(found);
      SearchedMeans(syncs, located, pulses);
      assert forall i :: 0 <= i < |found| ==> located[i] == at + found[i] && located[i] in located;
      forall x | x in located ensures Finds(found, at, x) {
        var i :| 0 <= i < |located| && located[i] == x;
        Found(found, at, i);
      }
    }

    /** One of the pulses found is at x, `at` being where the search began. */
    static predicate Finds(found: seq<int>, at: int, x: int) {
      exists i :: 0 <= i < |found| && x == at + found[i]
    }

    static lemma Found(found: seq<int>, at: int, i: nat)
      requires i < |found|
      ensures Finds(found, at, at + found[i])
    {}

    /** The search begins no later than one line before the end of the last one, or the VIS
        end, or the buffer itself, with at most the filter padding in front of that. */
    lemma SearchReachesBack()
      ensures var from := Max(bufStart, Max(visEnd, lastSearchEnd - Trunc(lineSamp)));
        bufStart <= bufStart + SearchStart() <= from && from - (bufStart + SearchStart()) <= FILTER_MARGIN
        && (from - (bufStart + SearchStart()) < FILTER_MARGIN ==> SearchStart() == 0)
    {}

    method UpdateSyncs(found: seq<int>)
      requires Valid()
      modifies this`syncs, this`lastSearchEnd
      ensures Valid()
      ensures syncs == old(Harvested(found))
      ensures lastSearchEnd
        == if old(|buf| - SearchStart()) < MIN_BANDPASS_SAMPLES then old(lastSearchEnd) else CurrentAbs()
    {
      hide Suffix, LinesInOrder, Sorted, Sort, Merge, SearchStart;
      var start := SearchStart();
      if |buf| - start < MIN_BANDPASS_SAMPLES {
        return;
      }
      var tailAbs := bufStart + start;
      ghost var located := Located(found);
      var merged := syncs;
      for i := 0 to |found|
        invariant merged == MergeAll(syncs, located[..i])
      {
        assert located[..i + 1][..i] == located[..i];
        merged := Merge(merged, tailAbs + found[i]);
      }
      assert located[..|found|] == located;
      SortSorted(merged);
      syncs := Sort(merged);
      lastSearchEnd := CurrentAbs();
    }

    /** The window around a buffer-relative sync. */
    function WindowAt(sync: int): seq<real>
      reads `buf
    {
      Slice(buf, Max(0, sync - lookback), Min(|buf|, sync + lookahead))
    }

    /** The next grid position is in the buffer and its scan has arrived. */
    predicate Ready()
      reads `buf, `bufStart, `syncs, `consumed
    {
      |syncs| >= 2 &&
      var g := BufGrid();
      consumed < |g| && g[consumed] >= 0
      && CurrentAbs() >= bufStart + g[consumed] + readyPostSync - READY_SLACK_SAMPLES
      && |WindowAt(g[consumed])| >= MIN_BANDPASS_SAMPLES
    }

    function NextLine(): Line
      reads `buf, `bufStart, `syncs, `consumed
      requires Ready()
    {
      var sync := BufGrid()[consumed];
      Line(consumed, bufStart + sync, bufStart + Max(0, sync - lookback), WindowAt(sync))
    }

    method TryDecodeNext() returns (decoded: bool)
      requires Valid()
      modifies this`consumed, this`lines
      ensures Valid()
      ensures decoded == old(Ready())
      ensures consumed == old(consumed) + (if decoded then 1 else 0)
      ensures lines == if decoded then old(lines) + [old(NextLine())] else old(lines)
    {
      hide Grid, CutFrom, WindowAt, Suffix, Relative, Sorted;
      if |syncs| < 2 {
        return false;
      }
      var grid := WalkSyncGrid(Relative(syncs, bufStart), lineSamp, gridLen, Some(line0 - bufStart as real));
      if consumed >= |grid| {
        return false;
      }
      var sync := grid[consumed];
      if sync < 0 {
        return false;
      }
      if CurrentAbs() < bufStart + sync + readyPostSync - READY_SLACK_SAMPLES {
        return false;
      }
      var window := WindowAt(sync);
      if |window| < MIN_BANDPASS_SAMPLES {
        return false;
      }
      GridLength(Relative(syncs, bufStart), lineSamp, gridLen, Some(line0 - bufStart as real));
      WindowFromStream(sync);
      lines := lines + [Line(consumed, bufStart + sync, bufStart + Max(0, sync - lookback), window)];
      consumed := consumed + 1;
      return true;
    }

    lemma WindowFromStream(sync: int)
      requires Suffix() && WindowAt(sync) != []
      ensures CutFrom(Line(consumed, bufStart + sync, bufStart + Max(0, sync - lookback), WindowAt(sync)),
                      stream, startAbs)
    {
      var i, w := Max(0, sync - lookback), WindowAt(sync);
      assert w == buf[i..i + |w|];
    }

    /** The line sits on the grid of the given candidates in a buffer from `origin` to
        `end`, its window opening `lookback` before its sync, or at the start of the buffer. */
    ghost predicate PlacedIn(heard: seq<int>, origin: int, end: int, l: Line) {
      var g := Grid(Relative(heard, origin), lineSamp, gridLen, Some(line0 - origin as real));
      && l.index < |g| && l.sync == origin + g[l.index]
      && l.start == Max(origin, l.sync - lookback)
      && l.start + |l.window| == Min(end, l.sync + lookahead)
      && end >= l.sync + readyPostSync - READY_SLACK_SAMPLES
    }

    ghost predicate Placed(l: Line)
      reads `syncs, `bufStart, `buf
    {
      PlacedIn(syncs, bufStart, CurrentAbs(), l)
    }

    /** Nothing from the line's first pixel sample on has been trimmed away. */
    ghost predicate StartHeld(l: Line) {
      l.start <= Max(startAbs, l.sync - (lookback - FILTER_MARGIN))
    }

    /** No pixel sample of the line, from its first channel to the end of its last
        scan, has been trimmed away or is still to come. */
    ghost predicate PixelsHeld(l: Line) {
      && StartHeld(l)
      && l.start + |l.window| >= Min(l.sync + lookahead, l.sync + readyPostSync - READY_SLACK_SAMPLES)
    }

    /** Every line of the image in reach of h is among the first n. */
    ghost predicate Reached(s: Signal, h: Heard, n: nat) {
      forall k: nat :: k < gridLen && InReach(s, h, k) ==> k < n
    }

    /** Trimming up to `origin` respects line `since`. */
    ghost predicate Respects(s: Signal, origin: int, since: nat) {
      since >= gridLen || origin == startAbs
      || origin as real <= s.Line(since) + GridError(s) + 1.0 - lookback as real
    }

    /** Pruning has not passed the samples the next line will need. */
    ghost predicate KeepsAhead(s: Signal)
      reads `bufStart, `consumed
    {
      Respects(s, bufStart, consumed)
    }

    /** Where a buffer from `origin` to `end` begins after pruning: at the window of the next
        line, unless no line was decoded or that window is past the end. */
    ghost function PrunedTo(heard: seq<int>, origin: int, end: int, used: nat): int {
      if used == 0 || heard == [] then origin
      else
        var next := NextSync(Relative(heard, origin), lineSamp, gridLen, line0 - origin as real, used);
        var at := origin + Max(0, next - lookback);
        if at <= end then at else origin
    }

    /** Drop the audio before the next line's window. */
    method Prune()
      requires Valid()
      modifies this`buf, this`bufStart
      ensures Valid()
      ensures bufStart + |buf| == old(bufStart + |buf|)
      ensures bufStart == PrunedTo(syncs, old(bufStart), old(CurrentAbs()), consumed)
    {
      hide LinesInOrder, Sorted, Grid;
      if consumed == 0 || syncs == [] {
        return;
      }
      var cands := Relative(syncs, bufStart);
      var grid := WalkSyncGrid(cands, lineSamp, gridLen, Some(line0 - bufStart as real));
      var next := if consumed < |grid| then grid[consumed] else Trunc(cands[|cands| - 1] as real + lineSamp);
      var to := Max(0, next - lookback);
      if 0 < to <= |buf| {
        buf := buf[to..];
        bufStart := bufStart + to;
      }
    }

    /** The samples `Prune` drops; it drops none if they are not all there yet. */
    ghost function PruneTo(): int
      reads this
      requires syncs != []
    {
      NextSync(Relative(syncs, bufStart), lineSamp, gridLen, line0 - bufStart as real, consumed) - lookback
    }

    /** The grid is used up before the image is complete. */
    ghost predicate UsedUp(s: Signal)
      reads this
    {
      && Valid() && syncs != [] && s.p == lineSamp && s.Admissible(syncs, line0)
      && 0 < consumed == |BufGrid()| < gridLen
    }

    /** Main result. With noise as the last candidate and a quarter line longer than the
        padding, pruning cuts into the pixels of the next line, wherever in its place that
        line is later found. */
    lemma NoiseCutsPixels(s: Signal, l: Line)
      requires UsedUp(s) && s.Spurious(syncs[|syncs| - 1]) && Tolerance(lineSamp) > FILTER_MARGIN as real + 2.0
      requires PruneTo() > 0 && l.start >= bufStart + PruneTo() && l.index == consumed && OnItsLine(s, l)
      ensures !StartHeld(l)
    {
      hide Signal.Admissible, Signal.Spurious, Signal.Line, Grid, NextSync, LinesInOrder, Sorted;
      var rel, hint := Relative(syncs, bufStart), line0 - bufStart as real;
      MovedAdmissible(s, bufStart, syncs, line0);
      MovedSpurious(s, bufStart, syncs[|syncs| - 1]);
      NoiseOvershoots(Moved(s, bufStart), rel, hint, gridLen);
      MovedLine(s, bufStart, consumed);
    }

    /** Main result. With three quarters of a line inside the padding, no last candidate,
        noise included, makes pruning reach a pixel of the next line. */
    lemma NoiseAbsorbed(s: Signal, l: Line)
      requires UsedUp(s) && 0.75 * lineSamp + 2.0 * GridError(s) + 1.0 <= FILTER_MARGIN as real
      requires PruneTo() > 0 && l.start == Max(bufStart + PruneTo(), l.sync - lookback) && l.index == consumed
        && OnItsLine(s, l)
      ensures StartHeld(l)
    {
      hide Signal.Admissible, Signal.Line, Grid, NextSync, LinesInOrder, Sorted;
      var rel, hint := Relative(syncs, bufStart), line0 - bufStart as real;
      MovedAdmissible(s, bufStart, syncs, line0);
      PredictionOvershoot(Moved(s, bufStart), rel, hint, gridLen);
      MovedLine(s, bufStart, consumed);
    }

    /** Bound the buffer of a stalled decode. */
    method EnforceStallCap()
      requires Valid()
      modifies this`buf, this`bufStart, this`syncs, this`trimmed
      ensures Valid() && |buf| <= StallCap()
      ensures bufStart + |buf| == old(bufStart + |buf|)
      ensures trimmed == old(trimmed || |buf| > StallCap())
      ensures old(|buf|) <= StallCap() ==> bufStart == old(bufStart) && syncs == old(syncs)
      ensures old(|buf|) > StallCap() ==> |buf| == StallCap() && syncs == From(old(syncs), bufStart)
    {
      var cap := StallCap();
      CapNonNegative(gridLen, lineSamp);
      if |buf| <= cap {
        return;
      }
      var drop := |buf| - cap;
      buf := buf[drop..];
      bufStart := bufStart + drop;
      FromSorted(syncs, bufStart);
      syncs := From(syncs, bufStart);
      trimmed := true;
    }

    /** Trimming so far respected line `since`, and what has been heard tracks s. */
    ghost predicate OnAir(s: Signal, since: nat)
      reads `bufStart, `consumed, `syncs
    {
      && s.p == lineSamp && WithinMargin(s) && since <= consumed
      && Respects(s, bufStart, since)
      && (if syncs == [] then consumed == since else Tracks(s, syncs, line0, bufStart, gridLen, consumed))
    }

    /** Why no line is decoded next from candidates `heard` in a buffer from `origin` to
        `end`: fewer than two syncs, no such line on the grid, the line in front of the
        buffer, its scan still to come, or its window too short for the filter. */
    ghost predicate Stalled(heard: seq<int>, origin: int, end: int, used: nat) {
      |heard| < 2 ||
      var g := Grid(Relative(heard, origin), lineSamp, gridLen, Some(line0 - origin as real));
      || used >= |g| || g[used] < 0
      || end < origin + g[used] + readyPostSync - READY_SLACK_SAMPLES
      || Min(end - origin, g[used] + lookahead) - Max(0, g[used] - lookback) < MIN_BANDPASS_SAMPLES
    }

    lemma EndOfAudio()
      requires Suffix()
      ensures CurrentAbs() == startAbs + |stream|
    {}

    lemma NotReady()
      requires Suffix() && !Ready()
      ensures Stalled(syncs, bufStart, startAbs + |stream|, consumed)
    {
      hide Grid, Relative;
    }

    /** Line k can be decoded from h: two syncs were heard, one of them of line k or later,
        and its scan is in. */
    ghost predicate InReach(s: Signal, h: Heard, k: nat) {
      && |h.cands| >= 2 && (exists j: nat :: k <= j && s.Received(h.cands, j))
      && h.end as real >= s.Line(k) + GridError(s) + (readyPostSync - READY_SLACK_SAMPLES) as real
    }

    /** The scan behind a sync is longer than the filter needs, and the transmission does not
        begin in front of the audio. */
    ghost predicate Spacious(s: Signal) {
      && readyPostSync >= READY_SLACK_SAMPLES + MIN_BANDPASS_SAMPLES && lookahead >= MIN_BANDPASS_SAMPLES
      && s.a >= startAbs as real + GridError(s)
    }

    /** A line in reach, and every line before it, is on the grid. */
    lemma OnGrid(s: Signal, h: Heard, k: nat)
      requires s.p == lineSamp && s.Admissible(h.cands, line0) && InReach(s, h, k) && k < gridLen
      ensures k < |Grid(Relative(h.cands, h.origin), lineSamp, gridLen, Some(line0 - h.origin as real))|
    {
      hide Signal.Admissible, Signal.Received, Signal.Line, Grid;
      var j: nat :| k <= j && s.Received(h.cands, j);
      var s', c', hint := Moved(s, h.origin), Relative(h.cands, h.origin), line0 - h.origin as real;
      MovedAdmissible(s, h.origin, h.cands, line0);
      MovedReceived(s, h.origin, h.cands, j);
      if j >= gridLen {
        GridReaches(s', c', hint, gridLen, j);
      } else {
        NumberingNeverSlips(s', c', hint, gridLen, j);
      }
    }

    /** Nothing but missing audio or missing syncs holds a decode up. */
    lemma NotStalled(s: Signal, h: Heard, since: nat, k: nat)
      requires lookback >= FILTER_MARGIN && s.p == lineSamp > 0.0 && WithinMargin(s) && Spacious(s)
      requires s.Admissible(h.cands, line0) && Respects(s, h.origin, since)
      requires since <= h.used <= k < gridLen && InReach(s, h, k)
      ensures !Stalled(h.cands, h.origin, h.end, h.used)
    {
      hide Signal.Admissible, Signal.Received, Signal.Line, Grid, Relative;
      OnGrid(s, h, k);
      EntryOnLine(s, h.cands, line0, h.origin, gridLen, h.used);
      Monotone(s, since, h.used);
      Monotone(s, h.used, k);
      Monotone(s, 0, h.used);
      FirstLine(s);
    }

    lemma FirstLine(s: Signal)
      ensures s.Line(0) == s.a
    {}

    /** Feed one chunk of audio; returns the grid indices decoded by this call, and
        the candidates they were decoded from. It decodes until the image is complete or the
        next line cannot be decoded yet. Lines decoded from an admissible signal sit on their
        own scan lines; while the candidates track it, no line decoded ever misses a pixel
        sample. */
    method Feed(chunk: seq<real>, found: seq<int>, ghost s: Signal) returns (rows: seq<nat>, ghost heard: seq<int>)
      requires Valid()
      modifies this
      ensures Valid()
      ensures stream == old(stream) + chunk
      ensures chunk != [] ==> |buf| <= StallCap()
      ensures old(lines) <= lines && Counts(rows, |old(lines)|, |lines|)
      ensures chunk != [] ==> heard == old(HarvestedIn(|buf| + |chunk|, found)) && (!trimmed ==> syncs == heard)
      ensures chunk != [] ==> consumed >= gridLen || Stalled(heard, old(bufStart), startAbs + |stream|, consumed)
      ensures forall i :: |old(lines)| <= i < |lines| ==> PlacedIn(heard, old(bufStart), startAbs + |stream|, lines[i])
      ensures chunk != [] && !trimmed ==> bufStart == PrunedTo(heard, old(bufStart), startAbs + |stream|, consumed)
      ensures chunk == []
        ==> rows == [] && bufStart == old(bufStart) && heard == syncs == old(syncs) && lines == old(lines)
      ensures s.p == lineSamp && s.Admissible(heard, line0)
              ==> forall i :: |old(lines)| <= i < |lines| ==> OnItsLine(s, lines[i])
      ensures !trimmed && old(KeepsAhead(s)) && s.p == lineSamp && WithinMargin(s)
              && (heard == [] || Tracks(s, heard, line0, old(bufStart), gridLen, consumed))
              ==> KeepsAhead(s) && forall i :: |old(lines)| <= i < |lines| ==> PixelsHeld(lines[i])
      ensures old(trimmed) ==> trimmed
    {
      hide Suffix, CutFrom, PlacedIn, PixelsHeld, Tracks, Ready, NextLine, HarvestedIn, BufGrid, Grid, WithinMargin,
        Sorted,
        StallCap, OnItsLine, Signal.Admissible, Stalled, Respects, PrunedTo;
      rows := [];
      heard := syncs;
      if chunk == [] {
        return;
      }
      Append(chunk);
      UpdateSyncs(found);
      heard := syncs;
      ghost var origin, since, from := bufStart, consumed, |lines|;
      assert origin == old(bufStart) && since == old(consumed);
      rows := DecodeReady();
      if consumed < gridLen {
        NotReady();
      }
      EndOfAudio();
      if s.p == lineSamp && s.Admissible(syncs, line0) {
        forall i | from <= i < |lines| ensures OnItsLine(s, lines[i]) {
          LineOnItsLine(s, lines[i]);
        }
      }
      if OnAir(s, since) && syncs != [] {
        forall i | from <= i < |lines| ensures PixelsHeld(lines[i]) {
          LineHeld(s, since, lines[i]);
        }
      }
      Trim(s, since);
    }

    /** Feed chunk after chunk; `log` says what every feed decoded from. Over the whole
        run lines are decoded once each in order, they sit on their own scan lines when
        what was heard is admissible, and while it tracks one transmission and nothing was
        stall-trimmed none of them misses a pixel sample, and every line in reach has been
        decoded. */
    method FeedAll(chunks: seq<seq<real>>, founds: seq<seq<int>>, ghost s: Signal)
        returns (rows: seq<nat>, ghost log: seq<Heard>)
      requires Valid() && |founds| == |chunks|
      modifies this
      ensures Valid()
      ensures stream == old(stream) + Joined(chunks)
      ensures old(lines) <= lines && Counts(rows, |old(lines)|, |lines|)
      ensures |log| == |chunks|
      ensures s.p == lineSamp && (forall i :: 0 <= i < |log| ==> s.Admissible(log[i].cands, line0))
              ==> forall i :: |old(lines)| <= i < |lines| ==> OnItsLine(s, lines[i])
      ensures !trimmed && old(KeepsAhead(s)) && s.p == lineSamp && WithinMargin(s)
              && (forall i :: 0 <= i < |log| ==> Followed(s, log[i]))
              ==> KeepsAhead(s) && forall i :: |old(lines)| <= i < |lines| ==> PixelsHeld(lines[i])
      ensures forall i :: 0 <= i < |log| ==> log[i].end == startAbs + |old(stream) + Joined(chunks[..i + 1])|
      ensures !trimmed && old(KeepsAhead(s)) && s.p == lineSamp && WithinMargin(s) && Spacious(s)
              && (forall i :: 0 <= i < |log| ==> Followed(s, log[i])) && chunks != [] && chunks[|chunks| - 1] != []
              ==> Reached(s, log[|log| - 1], |lines|)
      ensures old(trimmed) ==> trimmed
    {
      hide Suffix, LinesInOrder, PixelsHeld, Tracks, WithinMargin, Sorted, StallCap, OnItsLine, Signal.Admissible,
        Respects, Stalled, Reached, Spacious, HarvestedIn, PrunedTo, PlacedIn, Joined;
      rows, log := [], [];
      assert Joined(chunks[..0]) == [] by { NoneJoined(); }
      for n := 0 to |chunks|
        invariant Valid() && |log| == n
        invariant stream == old(stream) + Joined(chunks[..n])
        invariant old(lines) <= lines && Counts(rows, |old(lines)|, |lines|)
        invariant s.p == lineSamp && (forall i :: 0 <= i < n ==> s.Admissible(log[i].cands, line0))
          ==> forall i :: |old(lines)| <= i < |lines| ==> OnItsLine(s, lines[i])
        invariant !trimmed && old(KeepsAhead(s)) && s.p == lineSamp && WithinMargin(s)
          && (forall i :: 0 <= i < n ==> Followed(s, log[i]))
          ==> KeepsAhead(s) && forall i :: |old(lines)| <= i < |lines| ==> PixelsHeld(lines[i])
        invariant forall i :: 0 <= i < n ==> log[i].end == startAbs + |old(stream) + Joined(chunks[..i + 1])|
        invariant !trimmed && old(KeepsAhead(s)) && s.p == lineSamp && WithinMargin(s) && Spacious(s)
          && (forall i :: 0 <= i < n ==> Followed(s, log[i])) && n > 0 && chunks[n - 1] != []
          ==> Reached(s, log[n - 1], |lines|)
        invariant old(trimmed) ==> trimmed
      {
        ghost var origin, before, since, ahead := bufStart, lines, consumed, KeepsAhead(s);
        ConsumedIsLines();
        var more, heard := Feed(chunks[n], founds[n], s);
        ConsumedIsLines();
        JoinedStep(chunks, n);
        ghost var h := Heard(heard, origin, startAbs + |stream|, consumed);
        ghost var longer := log + [h];
        assert forall i :: 0 <= i < n ==> log[i] == longer[i];
        assert longer[n] == h;
        if ahead && s.p == lineSamp && WithinMargin(s) && Spacious(s) && Followed(s, h) && chunks[n] != [] {
          AllInReach(s, h, since);
        }
        assert forall i :: |old(lines)| <= i < |before| ==> lines[i] == before[i];
        rows, log := rows + more, longer;
      }
      assert chunks[..|chunks|] == chunks;
    }

    lemma ConsumedIsLines()
      requires LinesInOrder()
      ensures consumed == |lines|
    {}

    /** After a feed that began with line `since`, what it decoded reaches every line in reach. */
    lemma AllInReach(s: Signal, h: Heard, since: nat)
      requires lookback >= FILTER_MARGIN && s.p == lineSamp > 0.0 && WithinMargin(s) && Spacious(s) && Followed(s, h)
      requires Respects(s, h.origin, since) && since <= h.used
      requires h.used >= gridLen || Stalled(h.cands, h.origin, h.end, h.used)
      ensures Reached(s, h, h.used)
    {
      hide Stalled, Spacious, WithinMargin, Signal.Admissible, Respects;
      forall k: nat | k < gridLen && InReach(s, h, k) ensures k < h.used {
        if h.used <= k {
          NotStalled(s, h, since, k);
        }
      }
    }

    /** What a feed decoded from is the transmission's, as far as it goes. */
    ghost predicate Followed(s: Signal, h: Heard) {
      h.cands == [] || Tracks(s, h.cands, line0, h.origin, gridLen, h.used)
    }

    /** The two trims at the end of a feed. */
    method Trim(ghost s: Signal, ghost since: nat)
      requires Valid()
      modifies this`buf, this`bufStart, this`syncs, this`trimmed
      ensures Valid() && |buf| <= StallCap()
      ensures old(trimmed) ==> trimmed
      ensures !trimmed
        ==> syncs == old(syncs) && bufStart == PrunedTo(syncs, old(bufStart), old(CurrentAbs()), consumed)
      ensures !trimmed && old(OnAir(s, since)) ==> KeepsAhead(s)
    {
      hide Suffix, LinesInOrder, Sorted, StallCap, NextSync, Signal.Line, GridError, Tracks;
      if OnAir(s, since) && consumed < gridLen && syncs != [] {
        StillAhead(s, since);
      }
      Prune();
      EnforceStallCap();
    }

    lemma LineOnItsLine(s: Signal, l: Line)
      requires s.p == lineSamp && s.Admissible(syncs, line0) && Placed(l) && l.index < gridLen
      ensures OnItsLine(s, l)
    {
      hide Signal.Admissible, Signal.Line, Grid;
      EntryOnLine(s, syncs, line0, bufStart, gridLen, l.index);
    }

    /** A line decoded from the present grid, when trimming so far respected an
        earlier line. */
    lemma LineHeld(s: Signal, since: nat, l: Line)
      requires OnAir(s, since) && syncs != [] && Placed(l) && since <= l.index < gridLen
      ensures PixelsHeld(l)
    {
      hide Signal.Admissible, Signal.Line, Grid;
      Parts(s, syncs, line0);
      EntryOnLine(s, syncs, line0, bufStart, gridLen, l.index);
      Monotone(s, since, l.index);
    }

    /** Pruning to the predicted next sync respects the next line. */
    lemma StillAhead(s: Signal, since: nat)
      requires OnAir(s, since) && syncs != [] && consumed < gridLen
      ensures var next := NextSync(Relative(syncs, bufStart), lineSamp, gridLen, line0 - bufStart as real, consumed);
        var to := Max(0, next - lookback);
        bufStart + to == startAbs || (bufStart + to) as real <= s.Line(consumed) + GridError(s) + 1.0 - lookback as real
      ensures bufStart == startAbs || bufStart as real <= s.Line(consumed) + GridError(s) + 1.0 - lookback as real
    {
      hide Signal.Admissible, Signal.Line, NextSync, Grid, GridError;
      Parts(s, syncs, line0);
      AheadOfLine(s, syncs, line0, bufStart, gridLen, consumed);
      Monotone(s, since, consumed);
    }

    method Append(chunk: seq<real>)
      requires Valid()
      modifies this`buf, this`totalFed, this`stream
      ensures Valid() && stream == old(stream) + chunk && buf == old(buf) + chunk
    {
      forall i | 0 <= i < |lines| ensures CutFrom(lines[i], stream + chunk, startAbs) {
        assert CutFrom(lines[i], stream, startAbs);
      }
      hide CutFrom;
      buf := buf + chunk;
      totalFed := totalFed + |chunk|;
      stream := stream + chunk;
    }

    /** The decode loop of one feed: stops when the image is complete or the next
        line is not ready. */
    method DecodeReady() returns (rows: seq<nat>)
      requires Valid()
      modifies this`consumed, this`lines
      ensures Valid()
      ensures old(lines) <= lines && Counts(rows, |old(lines)|, |lines|)
      ensures consumed >= gridLen || !Ready()
      ensures forall i :: |old(lines)| <= i < |lines| ==> Placed(lines[i])
      ensures |syncs| < 2 ==> lines == old(lines)
    {
      hide CutFrom, Suffix, Ready, Placed, Sorted, NextLine, BufGrid, Relative, Grid;
      rows := [];
      while consumed < gridLen
        invariant Valid()
        invariant old(lines) <= lines && Counts(rows, |old(lines)|, |lines|)
        invariant forall i :: |old(lines)| <= i < |lines| ==> Placed(lines[i])
        invariant |syncs| < 2 ==> lines == old(lines)
        decreases gridLen - consumed
      {
        if Ready() {
          NextLinePlaced();
        }
        var ok := TryDecodeNext();
        if !ok {
          break;
        }
        rows := rows + [consumed - 1];
      }
    }

    lemma NextLinePlaced()
      requires Ready()
      ensures Placed(NextLine()) && |syncs| >= 2
    {}
  }

  /** rows is lo, lo + 1, ..., hi - 1. */
  ghost predicate Counts(rows: seq<nat>, lo: nat, hi: nat) {
    |rows| == hi - lo && forall i :: 0 <= i < |rows| ==> rows[i] == lo + i
  }

  lemma CapNonNegative(n: nat, p: real)
    requires p > 0.0
    ensures Trunc(n as real * p * 1.5) >= 0
  {
    assert n as real * p >= 0.0;
  }

  lemma {:induction false} FromSorted(syncs: seq<int>, lo: int)
    requires Sorted(syncs)
    ensures Sorted(From(syncs, lo))
  {
    if syncs != [] {
      FromSorted(syncs[1..], lo);
      var r := From(syncs[1..], lo);
      forall i | 0 <= i < |r| ensures syncs[0] <= r[i] {
        assert r[i] in r;
        var j :| 0 <= j < |syncs[1..]| && syncs[1..][j] == r[i];
        assert syncs[j + 1] == r[i];
      }
    }
  }
}
