/** From received sync pulses to the finished Scottie picture: the line grid and the
    slant fit place every line well enough for an exact decode. */
module ScottieReception {
  import opened Prelude
  import opened Rounding
  import opened LeastSquares
  import opened Pixels
  import opened Tones
  import opened Scottie
  import opened ScottieDrift
  import Sync = SyncGrid
  import Safety = GridSafety
  import Slant = SlantFit
  import SlantExact

  /** Where a mode has its sync pulse: at the start of a line, or before red. */
  datatype SyncPosition = LineStart | BeforeRed

  /** `first_sync_offset_samples`. */
  function FirstSyncOffset(spec: Spec, position: SyncPosition, fs: real): real {
    match position
    case BeforeRed => Samples(2.0 * (spec.porchMs + DerivedScanMs(spec)), fs)
    case LineStart => 0.0
  }

  /** `line0_sync_hint`. */
  function Line0Hint(spec: Spec, position: SyncPosition, fs: real, visEnd: int): real {
    visEnd as real + FirstSyncOffset(spec, position, fs)
  }

  /** The hint is the true place of line 0's sync when the picture starts at the VIS end:
      the VIS end itself, or where the encoder puts the sync before red. */
  lemma HintIsTrueSync(spec: Spec, fs: real, visEnd: int)
    ensures Line0Hint(spec, LineStart, fs, visEnd) == visEnd as real
    ensures Line0Hint(spec, BeforeRed, fs, visEnd) == TrueSync(spec, fs, visEnd as real, 0)
  {
    hide Samples;
    var porch, scan := spec.porchMs, spec.scanMs;
    assert DerivedScanMs(spec) == scan;
    SamplesSum(porch + scan, porch + scan, fs);
    SamplesSum(porch, scan, fs);
    Step(0, LineSamples(spec, fs));
  }

  /** The transmission's syncs lie on the picture's own lattice. */
  ghost predicate SentAt(s: Safety.Signal, spec: Spec, fs: real, t0: real) {
    s.a == TrueSync(spec, fs, t0, 0) && s.p == LineSamples(spec, fs)
  }

  lemma {:induction false} LatticeIsPicture(s: Safety.Signal, spec: Spec, fs: real, t0: real, n: nat)
    requires SentAt(s, spec, fs, t0)
    ensures s.Line(n) == TrueSync(spec, fs, t0, n)
  {
    hide LineSamples, SyncStart, Mul;
    Step(0, s.p);
    if n > 0 {
      LatticeIsPicture(s, spec, fs, t0, n - 1);
      Step(n - 1, s.p);
    }
  }

  /** Main result. Syncs received at most half a sample off, among any admissible noise
      and losses: from the anchor on, every received line is decoded exactly. */
  lemma ReceivedLineIsExact(inst: seq<real>, img: Image, spec: Spec, fs: real, t0: real,
                            s: Safety.Signal, cands: seq<int>, hint: real, n: nat, c: nat, ch: Channel)
    requires spec.Valid() && fs > 0.0 && Fits(img, spec) && n < |img| && c < spec.width
    requires Carries(inst, ImageTones(img, spec), fs, t0)
    requires Samples(spec.scanMs / spec.width as real, fs) >= 5.0
    requires SentAt(s, spec, fs, t0) && s.e <= 0.5 && s.Admissible(cands, hint) && s.Received(cands, n)
    requires Sync.Anchor(cands, s.p, Sync.Tolerance(s.p), Some(hint)).1 <= n
    ensures var grid := Sync.Grid(cands, s.p, spec.height, Some(hint));
      n < |grid| && Decoded(inst, fs, spec, grid[n], ch, c) == Value(img[n][c], ch)
  {
    hide Decoded, ImageTones, Carries, Samples, TrueSync, Safety.Signal.Admissible, Safety.Signal.Received,
      Safety.Signal.Line, Sync.Grid, Sync.Anchor;
    Safety.NumberingNeverSlips(s, cands, hint, spec.height, n);
    LatticeIsPicture(s, spec, fs, t0, n);
    PixelSurvives(inst, img, spec, fs, t0, n, c, ch, Sync.Grid(cands, s.p, spec.height, Some(hint))[n]);
  }

  /** What the slant-corrected decode of one transmission rests on: a sender with a steady
      clock of rate fsTx, its received syncs exactly on their lines, and the nominal line of
      a receiver with rate fsRx. */
  ghost predicate SlantHeard(spec: Spec, fsTx: real, fsRx: real, t0: real, cands: seq<int>, lines: seq<int>,
      hint: Option<real>)
  {
    var p := LineSamples(spec, fsRx);
    && p > 0.0 && 0.75 * p <= LineSamples(spec, fsTx) <= 1.25 * p
    && SlantExact.Exact(cands, lines, TrueSync(spec, fsTx, t0, 0), LineSamples(spec, fsTx))
    && var (i, slot) := Sync.Anchor(cands, p, Sync.Tolerance(p), hint);
      && i < |cands| && i < |lines| && lines[i] == slot
      && (exists j :: i <= j && j + 1 < |cands| && j + 1 < |lines| && lines[j + 1] == lines[j] + 1)
      && SlantExact.ThreeLines(lines, i, spec.height)
  }

  /** The fitted line starts are within half a sample of the sender's lines. */
  lemma SlantStartsOnLines(spec: Spec, fsTx: real, fsRx: real, t0: real, cands: seq<int>, lines: seq<int>,
      hint: Option<real>)
    requires SlantHeard(spec, fsTx, fsRx, t0, cands, lines, hint) && spec.height > 0
    ensures var starts := Slant.SlantStarts(cands, LineSamples(spec, fsRx), spec.height, hint);
      |starts| == spec.height
      && forall n :: 0 <= n < |starts| ==> -0.5 <= starts[n] as real - TrueSync(spec, fsTx, t0, n) <= 0.5
  {
    hide LineSamples, SyncStart, SlantExact.Exact, SlantExact.ThreeLines, Slant.SlantStarts, Sync.Anchor, Mul;
    var p, a, s := LineSamples(spec, fsRx), TrueSync(spec, fsTx, t0, 0), LineSamples(spec, fsTx);
    var starts := Slant.SlantStarts(cands, p, spec.height, hint);
    Lengths(cands, lines, a, s);
    SlantExact.DriftRemoved(cands, lines, a, s, p, spec.height, hint, 0);
    Step(0, s);
    forall n | 0 <= n < |starts| ensures -0.5 <= starts[n] as real - TrueSync(spec, fsTx, t0, n) <= 0.5 {
      SlantExact.DriftRemoved(cands, lines, a, s, p, spec.height, hint, n);
    }
  }

  lemma Lengths(cands: seq<int>, lines: seq<int>, a: real, s: real)
    requires SlantExact.Exact(cands, lines, a, s)
    ensures |lines| == |cands|
  {}

  /** Main result. The slant fit corrects the line starts, and the channels and pixels of a
      line keep the receiver's nominal places: with clocks that fit, every picture is decoded
      exactly, lines without a received sync included; with clocks far apart, some is not. */
  lemma SlantCorrectedPictureIsExact(spec: Spec, fsTx: real, fsRx: real, t0: real, cands: seq<int>, lines: seq<int>,
                                     hint: Option<real>, trackLen: nat)
    requires spec.Valid() && spec.height > 0 && fsTx > 0.0 && fsRx > 0.0
    requires t0 >= 0.0 && t0 + Mul(spec.height as real, LineSamples(spec, fsTx)) <= trackLen as real
    requires SlantHeard(spec, fsTx, fsRx, t0, cands, lines, hint)
    ensures var starts := Slant.SlantStarts(cands, LineSamples(spec, fsRx), spec.height, hint);
      && |starts| == spec.height
      && (DriftFits(spec, fsTx, fsRx) && Room(spec, fsTx, fsRx, t0, trackLen)
          ==> PictureAlwaysRead(spec, fsTx, fsRx, t0, starts, trackLen))
      && (FarApart(spec, fsTx, fsRx) ==> !PictureAlwaysRead(spec, fsTx, fsRx, t0, starts, trackLen))
  {
    hide LineSamples, TrueSync, SlantHeard, Slant.SlantStarts, DriftFits, Room, FarApart, PictureAlwaysRead, Mul;
    SlantStartsOnLines(spec, fsTx, fsRx, t0, cands, lines, hint);
    PictureUnderDrift(spec, fsTx, fsRx, t0, Slant.SlantStarts(cands, LineSamples(spec, fsRx), spec.height, hint),
        trackLen);
  }

  /** Three syncs of a Scottie S1 sender whose lines are 20576 samples at a receiver of
      48 kHz, a tenth of a percent too long: the slant fit is exact and a picture is lost. */
  lemma ScottieS1LosesPixels(fsTx: real, t0: real, cands: seq<int>, trackLen: nat)
    requires fsTx == 20576000.0 / 428.22 && t0 == 20000.0 - SyncStart(SCOTTIE_S1, fsTx)
    requires cands == [20000, 40576, 61152] && trackLen == 5_300_000
    ensures SlantHeard(SCOTTIE_S1, fsTx, 48000.0, t0, cands, [0, 1, 2], None)
    ensures var starts := Slant.SlantStarts(cands, LineSamples(SCOTTIE_S1, 48000.0), 256, None);
      |starts| == 256 && !PictureAlwaysRead(SCOTTIE_S1, fsTx, 48000.0, t0, starts, trackLen)
  {
    hide Slant.SlantStarts, PictureAlwaysRead, SlantHeard;
    S1Numbers(fsTx, t0);
    S1Heard(fsTx, t0, cands);
    SlantCorrectedPictureIsExact(SCOTTIE_S1, fsTx, 48000.0, t0, cands, [0, 1, 2], None, trackLen);
  }

  lemma S1Numbers(fsTx: real, t0: real)
    requires fsTx == 20576000.0 / 428.22 && t0 == 20000.0 - SyncStart(SCOTTIE_S1, fsTx)
    ensures LineSamples(SCOTTIE_S1, fsTx) == 20576.0 && LineSamples(SCOTTIE_S1, 48000.0) == 20554.56
    ensures FarApart(SCOTTIE_S1, fsTx, 48000.0) && SCOTTIE_S1.Valid()
    ensures 0.0 <= t0 && t0 + Mul(256.0, LineSamples(SCOTTIE_S1, fsTx)) <= 5_300_000.0
    ensures TrueSync(SCOTTIE_S1, fsTx, t0, 0) == 20000.0
  {}

  lemma S1Heard(fsTx: real, t0: real, cands: seq<int>)
    requires fsTx == 20576000.0 / 428.22 && cands == [20000, 40576, 61152]
    requires LineSamples(SCOTTIE_S1, fsTx) == 20576.0 && LineSamples(SCOTTIE_S1, 48000.0) == 20554.56
    requires TrueSync(SCOTTIE_S1, fsTx, t0, 0) == 20000.0
    ensures SlantHeard(SCOTTIE_S1, fsTx, 48000.0, t0, cands, [0, 1, 2], None)
  {
    hide LineSamples, TrueSync, SlantExact.ThreeLines;
    var lines := [0, 1, 2];
    S1Anchor(cands);
    S1Lines(lines);
    assert lines[0 + 1] == lines[0] + 1;
  }

  lemma S1Lines(lines: seq<int>)
    requires lines == [0, 1, 2]
    ensures SlantExact.ThreeLines(lines, 0, 256)
  {
    assert lines[0] < lines[1] < lines[2] < 256;
  }

  lemma S1Anchor(cands: seq<int>)
    requires cands == [20000, 40576, 61152]
    ensures Sync.Anchor(cands, 20554.56, Sync.Tolerance(20554.56), None) == (0, 0)
  {
    var p := 20554.56;
    RoundQuotient(20576.0, p, 1, p);
    assert Sync.Meets(Sync.GapAndLattice, cands, p, Sync.Tolerance(p), None, 0);
  }
}
