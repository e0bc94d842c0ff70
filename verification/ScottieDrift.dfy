/** A Scottie picture whose sender's clock runs at another rate than the receiver's: the
    decoder places channels and pixels by its own rate (core/decoder.py). */
module ScottieDrift {
  import opened Prelude
  import opened Rounding
  import opened LeastSquares
  import opened Majority
  import opened Pixels
  import opened Tones
  import opened Scottie

  // ---- where a pixel is sent and where it is looked for ----

  function Ceil(x: real): (c: int)
    ensures x <= c as real < x + 1.0
  {
    -((-x).Floor)
  }

  function PixelMs(spec: Spec): real
    requires spec.Valid()
  {
    spec.scanMs / spec.width as real
  }

  /** Where the dwell of a pixel begins, by the sender's clock. */
  function DwellStart(spec: Spec, fsTx: real, t0: real, n: nat, ch: Channel, c: nat): real
    requires spec.Valid()
  {
    t0 + Mul(n as real, LineSamples(spec, fsTx)) + ChannelStart(spec, fsTx, ch)
      + Mul(c as real, Samples(PixelMs(spec), fsTx))
  }

  /** The samples looked at for it, by the receiver's clock. */
  function Looked(spec: Spec, fsRx: real, sync: int, ch: Channel, c: nat): (w: (int, int))
    requires spec.Valid()
    ensures w.0 < w.1
  {
    Window(sync as real + Samples(OffsetMs(spec, ch), fsRx), Samples(DerivedScanMs(spec), fsRx) / spec.width as real, c)
  }

  /** More than half of the window's samples lie from `from` up to `to`. */
  predicate MostlyIn(w: (int, int), from: real, to: real) {
    2 * (Min(w.1, Ceil(to)) - Max(w.0, Ceil(from))) > w.1 - w.0
  }

  /** The window lies in the track, and most of it in the pixel's own dwell. */
  predicate ReadsOwn(spec: Spec, fsTx: real, fsRx: real, t0: real, n: nat, ch: Channel, c: nat, sync: int,
      trackLen: nat)
    requires spec.Valid()
  {
    var w, from := Looked(spec, fsRx, sync, ch, c), DwellStart(spec, fsTx, t0, n, ch, c);
    0 <= w.0 && w.1 <= trackLen && MostlyIn(w, from, from + Samples(PixelMs(spec), fsTx))
  }

  // ---- a pixel that is looked for in its own dwell is read ----

  lemma OwnTone(inst: seq<real>, img: Image, spec: Spec, fsTx: real, t0: real, n: nat, ch: Channel, c: nat, i: nat)
    requires spec.Valid() && fsTx > 0.0 && Fits(img, spec) && n < |img| && c < spec.width && i < |inst|
    requires Carries(inst, ImageTones(img, spec), fsTx, t0)
    requires var from := DwellStart(spec, fsTx, t0, n, ch, c); from <= i as real < from + Samples(PixelMs(spec), fsTx)
    ensures inst[i] == ByteToFreq(Value(img[n][c], ch))
  {
    hide Mul, LineSamples, Samples, ScanTones, ImageTones, ChannelStart, Time, FreqAt, Forward, ToneFreq;
    var ms := PixelMs(spec);
    var p := Samples(ms, fsTx);
    var before, after := ChannelInImage(img, spec, fsTx, n, ch);
    WithinScan(spec.scanMs, spec.width, fsTx, c);
    Step(c, p);
    SamplesNotNegative(ms, fsTx);
    TimeNotNegative(before, fsTx);
    var t := i as real - t0;
    FreqPast(before, ScanTones(Values(img[n], ch), ms) + after, fsTx, t);
    ScanFreq(Values(img[n], ch), ms, after, fsTx, c, t - Time(before, fsTx));
  }

  lemma OwnIsRead(inst: seq<real>, img: Image, spec: Spec, fsTx: real, fsRx: real, t0: real, n: nat, ch: Channel,
      c: nat, sync: int)
    requires spec.Valid() && fsTx > 0.0 && fsRx > 0.0 && Fits(img, spec) && n < |img| && c < spec.width
    requires Carries(inst, ImageTones(img, spec), fsTx, t0)
    requires ReadsOwn(spec, fsTx, fsRx, t0, n, ch, c, sync, |inst|)
    ensures Decoded(inst, fsRx, spec, sync, ch, c) == Value(img[n][c], ch)
  {
    hide DwellStart, Samples, OffsetMs, DerivedScanMs, Carries, ImageTones, Window, Median, ToneFreq, Shade;
    var w, from := Looked(spec, fsRx, sync, ch, c), DwellStart(spec, fsTx, t0, n, ch, c);
    var v := Value(img[n][c], ch);
    var a, b := Max(w.0, Ceil(from)), Min(w.1, Ceil(from + Samples(PixelMs(spec), fsTx)));
    forall i | a <= i < b ensures inst[i] == ByteToFreq(v) {
      OwnTone(inst, img, spec, fsTx, t0, n, ch, c, i);
    }
    MedianOfMost(inst[w.0..w.1], a - w.0, b - w.0, ByteToFreq(v));
    OffsetsAgree(spec, fsRx, ch);
    SamplesPositive(spec.scanMs, fsRx, PixelMs(spec), spec.width);
    ShadeOfByte(v);
  }

  // ---- otherwise a single bright pixel is lost ----

  function Bright(tones: seq<Tone>): (n: nat) {
    if tones == [] then 0 else (if tones[0].freq > FREQ_BLACK then 1 else 0) + Bright(tones[1..])
  }

  lemma {:induction false} BrightConcat(a: seq<Tone>, b: seq<Tone>)
    ensures Bright(a + b) == Bright(a) + Bright(b)
  {
    if a == [] {
      assert a + b == b;
    } else {
      BrightConcat(a[1..], b);
      assert (a + b)[1..] == a[1..] + b;
    }
  }

  /** The picture that is black but for one channel of one pixel. */
  function Spot(spec: Spec, n: nat, c: nat, ch: Channel): (img: Image)
    ensures Fits(img, spec)
  {
    seq(spec.height, i => seq(spec.width, j => if i == n && j == c then Pure(ch) else Rgb(0, 0, 0)))
  }

  function Pure(ch: Channel): (p: Rgb)
    ensures forall k: Channel :: Value(p, k) == if k == ch then 255 else 0
  {
    match ch
    case Red => Rgb(255, 0, 0)
    case Green => Rgb(0, 255, 0)
    case Blue => Rgb(0, 0, 255)
  }

  /** A scan is as bright as it has values above black. */
  lemma {:induction false} ScanBright(values: seq<real>, ms: real, c: int)
    requires forall i :: 0 <= i < |values| && i != c ==> values[i] == 0.0
    ensures Bright(ScanTones(values, ms)) <= if 0 <= c < |values| then 1 else 0
  {
    if values != [] {
      assert forall i :: 0 <= i < |values[1..]| ==> values[1..][i] == values[i + 1];
      ScanBright(values[1..], ms, c - 1);
      assert ScanTones(values, ms)[1..] == ScanTones(values[1..], ms);
    }
  }

  ghost predicate OnlySpot(row: seq<Rgb>, c: int, ch: Channel) {
    forall i, k: Channel :: 0 <= i < |row| && (i != c || k != ch) ==> Value(row[i], k) == 0
  }

  lemma LineBright(row: seq<Rgb>, spec: Spec, c: int, ch: Channel)
    requires spec.Valid() && |row| == spec.width && OnlySpot(row, c, ch)
    ensures Bright(LineTones(row, spec)) <= if 0 <= c < |row| then 1 else 0
  {
    hide ScanTones, Bright;
    var ms := PixelMs(spec);
    forall k: Channel ensures Bright(ScanTones(Values(row, k), ms)) <= if k == ch && 0 <= c < |row| then 1 else 0 {
      ScanBright(Values(row, k), ms, if k == ch then c else -1);
    }
    var g, b, r := ScanTones(Values(row, Green), ms), ScanTones(Values(row, Blue), ms), ScanTones(Values(row, Red), ms);
    var sep, sync := [Tone(FREQ_BLACK, spec.porchMs)], [Tone(FREQ_SYNC, spec.syncMs), Tone(FREQ_BLACK, spec.porchMs)];
    SeparatorsDark(spec);
    BrightConcat(sep, g);
    BrightConcat(sep, b);
    BrightConcat(sync, r);
    BrightConcat(sep + g, sep + b);
    BrightConcat(sep + g + (sep + b), sync + r);
  }

  lemma SeparatorsDark(spec: Spec)
    ensures Bright([Tone(FREQ_BLACK, spec.porchMs)]) == 0
    ensures Bright([Tone(FREQ_SYNC, spec.syncMs), Tone(FREQ_BLACK, spec.porchMs)]) == 0
  {
    var sync := [Tone(FREQ_SYNC, spec.syncMs), Tone(FREQ_BLACK, spec.porchMs)];
    assert sync[1..] == [Tone(FREQ_BLACK, spec.porchMs)];
  }

  lemma {:induction false} ImageBright(img: Image, spec: Spec, n: int, c: int, ch: Channel)
    requires spec.Valid() && forall i :: 0 <= i < |img| ==> |img[i]| == spec.width
    requires forall i :: 0 <= i < |img| ==> OnlySpot(img[i], if i == n then c else -1, ch)
    ensures Bright(ImageTones(img, spec)) <= if 0 <= n < |img| then 1 else 0
  {
    hide LineTones, OnlySpot, Bright;
    if img == [] {
      assert ImageTones(img, spec) == [] && Bright([]) == 0 by { NoneBright(); }
    } else {
      assert forall i :: 0 <= i < |img[1..]| ==> img[1..][i] == img[i + 1];
      ImageBright(img[1..], spec, n - 1, c, ch);
      LineBright(img[0], spec, if n == 0 then c else -1, ch);
      BrightConcat(LineTones(img[0], spec), ImageTones(img[1..], spec));
    }
  }

  lemma NoneBright()
    ensures Bright([]) == 0
  {}

  lemma RowOfSpot(spec: Spec, n: nat, c: nat, ch: Channel, i: nat)
    requires i < spec.height
    ensures OnlySpot(Spot(spec, n, c, ch)[i], if i == n then c else -1, ch)
  {
    var row := Spot(spec, n, c, ch)[i];
    forall j, k: Channel | 0 <= j < |row| && (i != n || j != c || k != ch) ensures Value(row[j], k) == 0 {
      assert row[j] == if i == n && j == c then Pure(ch) else Rgb(0, 0, 0);
    }
  }

  lemma SpotBright(spec: Spec, n: nat, c: nat, ch: Channel)
    requires spec.Valid() && n < spec.height && c < spec.width
    ensures Bright(ImageTones(Spot(spec, n, c, ch), spec)) <= 1
  {
    hide Bright, ImageTones;
    var img := Spot(spec, n, c, ch);
    forall i | 0 <= i < |img| ensures OnlySpot(img[i], if i == n then c else -1, ch) {
      RowOfSpot(spec, n, c, ch, i);
    }
    ImageBright(img, spec, n, c, ch);
  }

  /** A pixel's own tone in the whole picture, and what comes before and after. */
  lemma PixelInImage(img: Image, spec: Spec, fs: real, n: nat, ch: Channel, c: nat)
      returns (before: seq<Tone>, after: seq<Tone>)
    requires spec.Valid() && fs > 0.0 && Fits(img, spec) && n < |img| && c < spec.width
    ensures ImageTones(img, spec) == before + ([Tone(ByteToFreq(Value(img[n][c], ch)), PixelMs(spec))] + after)
    ensures 0.0 + Time(before, fs) == DwellStart(spec, fs, 0.0, n, ch, c)
  {
    hide Mul, LineSamples, Samples, ImageTones, ChannelStart, Time, Forward, ToneFreq, ScanTones;
    var ms, values := PixelMs(spec), Values(img[n], ch);
    var b, a := ChannelInImage(img, spec, fs, n, ch);
    ScanSplit(values, ms, c);
    var front, own, back := ScanTones(values[..c], ms), [Tone(ToneFreq(values[c]), ms)], ScanTones(values[c + 1..], ms);
    before, after := b + front, back + a;
    Regroup(b, front, own, back, a);
    TimeConcat(b, front, fs);
    ScanTime(values[..c], ms, fs);
  }

  lemma Regroup(b: seq<Tone>, front: seq<Tone>, own: seq<Tone>, back: seq<Tone>, a: seq<Tone>)
    ensures b + (front + (own + back) + a) == b + front + (own + (back + a))
  {}

  lemma {:induction false} ScanSplit(values: seq<real>, ms: real, c: nat)
    requires c < |values|
    ensures ScanTones(values, ms)
      == ScanTones(values[..c], ms) + ([Tone(ToneFreq(values[c]), ms)] + ScanTones(values[c + 1..], ms))
    decreases c
  {
    hide ToneFreq;
    if c > 0 {
      ScanSplit(values[1..], ms, c - 1);
      assert values[1..][..c - 1] == values[..c][1..] && values[1..][c..] == values[c + 1..];
      assert values[..c][0] == values[0];
    }
  }

  /** Dark tones never sound brighter than black. */
  lemma {:induction false} DarkSounds(tones: seq<Tone>, fs: real, t: real)
    requires Bright(tones) == 0
    ensures FreqAt(tones, fs, t) <= FREQ_BLACK
  {
    hide Samples;
    if tones != [] {
      DarkSounds(tones[1..], fs, t - Samples(tones[0].ms, fs));
    }
  }

  /** Outside the only bright tone it is dark. */
  lemma {:induction false} DarkAround(before: seq<Tone>, own: Tone, after: seq<Tone>, fs: real, t: real)
    requires Bright(before) == 0 && Bright(after) == 0 && t >= 0.0
    requires !(Time(before, fs) <= t < Time(before, fs) + Samples(own.ms, fs))
    ensures FreqAt(before + ([own] + after), fs, t) <= FREQ_BLACK
  {
    hide Samples;
    var tones := [own] + after;
    if before == [] {
      assert [] + tones == tones && tones[1..] == after;
      DarkSounds(after, fs, t - Samples(own.ms, fs));
    } else {
      assert (before + tones)[0] == before[0] && (before + tones)[1..] == before[1..] + tones;
      if t >= Samples(before[0].ms, fs) {
        DarkAround(before[1..], own, after, fs, t - Samples(before[0].ms, fs));
      }
    }
  }

  /** The ideal track of some tones, silent before and after. */
  function TrackOf(tones: seq<Tone>, fs: real, t0: real, trackLen: nat): (inst: seq<real>)
    ensures |inst| == trackLen
  {
    seq(trackLen, i => if i as real >= t0 then FreqAt(tones, fs, i as real - t0) else 0.0)
  }

  lemma {:induction false} ImageTime(img: Image, spec: Spec, fs: real)
    requires spec.Valid() && fs > 0.0 && forall i :: 0 <= i < |img| ==> |img[i]| == spec.width
    ensures Time(ImageTones(img, spec), fs) == Mul(|img| as real, LineSamples(spec, fs))
  {
    hide Mul, LineTones, LineSamples, ScanTones, ChannelStart, Forward, Samples;
    Step(|img|, LineSamples(spec, fs));
    if img != [] {
      ImageTime(img[1..], spec, fs);
      var b, a := ChannelInLine(img[0], spec, fs, Green);
      TimeConcat(LineTones(img[0], spec), ImageTones(img[1..], spec), fs);
      Step(|img| - 1, LineSamples(spec, fs));
    }
  }

  lemma TrackCarries(tones: seq<Tone>, fs: real, t0: real, trackLen: nat)
    requires t0 >= 0.0 && t0 + Time(tones, fs) <= trackLen as real
    ensures Carries(TrackOf(tones, fs, t0, trackLen), tones, fs, t0)
  {
    hide FreqAt, Time;
  }

  lemma FromZero(spec: Spec, fs: real, t0: real, n: nat, ch: Channel, c: nat)
    requires spec.Valid()
    ensures DwellStart(spec, fs, t0, n, ch, c) == t0 + DwellStart(spec, fs, 0.0, n, ch, c)
  {
    hide Mul, LineSamples, Samples, ChannelStart;
  }

  /** On the spot's track every sample is at most white, and outside its dwell at most black. */
  lemma SpotSounds(spec: Spec, fs: real, t0: real, n: nat, ch: Channel, c: nat, trackLen: nat, i: nat)
    requires spec.Valid() && fs > 0.0 && n < spec.height && c < spec.width && i < trackLen
    ensures var inst := TrackOf(ImageTones(Spot(spec, n, c, ch), spec), fs, t0, trackLen);
      var from := DwellStart(spec, fs, t0, n, ch, c);
      inst[i] <= BLACK_HZ || (inst[i] <= WHITE_HZ && from <= i as real < from + Samples(PixelMs(spec), fs))
  {
    hide Mul, LineSamples, Samples, ImageTones, ChannelStart, Time, FreqAt, DwellStart, Bright, Fits;
    var img := Spot(spec, n, c, ch);
    var before, after := PixelInImage(img, spec, fs, n, ch, c);
    var own, t := Tone(ByteToFreq(255), PixelMs(spec)), i as real - t0;
    SpotValue(spec, n, c, ch);
    FromZero(spec, fs, t0, n, ch, c);
    SpotBright(spec, n, c, ch);
    OwnBright(before, own, after);
    if t >= 0.0 {
      if Time(before, fs) <= t < Time(before, fs) + Samples(own.ms, fs) {
        OwnSounds(before, own, after, fs, t);
      } else {
        DarkAround(before, own, after, fs, t);
      }
    }
  }

  lemma SpotValue(spec: Spec, n: nat, c: nat, ch: Channel)
    requires n < spec.height && c < spec.width
    ensures var img := Spot(spec, n, c, ch); Fits(img, spec) && Value(img[n][c], ch) == 255
  {
    assert Spot(spec, n, c, ch)[n][c] == Pure(ch);
  }

  lemma OwnBright(before: seq<Tone>, own: Tone, after: seq<Tone>)
    requires own.freq > FREQ_BLACK && Bright(before + ([own] + after)) <= 1
    ensures Bright(before) == 0 && Bright(after) == 0
  {
    BrightConcat(before, [own] + after);
    assert ([own] + after)[1..] == after;
  }

  lemma {:induction false} OwnSounds(before: seq<Tone>, own: Tone, after: seq<Tone>, fs: real, t: real)
    requires Time(before, fs) <= t < Time(before, fs) + Samples(own.ms, fs) && Bright(before) == 0
      && own.freq > FREQ_BLACK
    ensures FreqAt(before + ([own] + after), fs, t) <= own.freq
  {
    hide Samples;
    var tones := [own] + after;
    if before == [] {
      assert [] + tones == tones;
    } else {
      assert (before + tones)[0] == before[0] && (before + tones)[1..] == before[1..] + tones;
      if t >= Samples(before[0].ms, fs) {
        OwnSounds(before[1..], own, after, fs, t - Samples(before[0].ms, fs));
      }
    }
  }

  lemma ShadeOfGrey(freq: real)
    requires freq <= (BLACK_HZ + WHITE_HZ) / 2.0
    ensures Shade(freq, false) <= 128
  {
    RoundMonotone(Clip((freq - BLACK_HZ) / (WHITE_HZ - BLACK_HZ), 0.0, 1.0) * 255.0, 127.5);
    RoundMonotone(127.5, 128.0);
    RoundUnique(128.0, 128);
  }

  lemma SpotIsLost(spec: Spec, fsTx: real, fsRx: real, t0: real, n: nat, ch: Channel, c: nat, sync: int, trackLen: nat)
    requires spec.Valid() && fsTx > 0.0 && fsRx > 0.0 && n < spec.height && c < spec.width
    requires !ReadsOwn(spec, fsTx, fsRx, t0, n, ch, c, sync, trackLen)
    ensures Decoded(TrackOf(ImageTones(Spot(spec, n, c, ch), spec), fsTx, t0, trackLen), fsRx, spec, sync, ch, c) != 255
  {
    hide DwellStart, Samples, OffsetMs, DerivedScanMs, ImageTones, Window, Median, Shade, TrackOf, Spot;
    var inst := TrackOf(ImageTones(Spot(spec, n, c, ch), spec), fsTx, t0, trackLen);
    var w, from := Looked(spec, fsRx, sync, ch, c), DwellStart(spec, fsTx, t0, n, ch, c);
    var to := from + Samples(PixelMs(spec), fsTx);
    if 0 <= w.0 && w.1 <= trackLen {
      var s := inst[w.0..w.1];
      var a, b := Max(w.0, Ceil(from)), Min(w.1, Ceil(to));
      forall i | w.0 <= i < w.1 ensures inst[i] <= WHITE_HZ && (a <= i < b || inst[i] <= BLACK_HZ) {
        SpotSounds(spec, fsTx, t0, n, ch, c, trackLen, i);
      }
      if a < b {
        MedianOfHalf(s, a - w.0, b - w.0, BLACK_HZ, WHITE_HZ);
      } else {
        MedianOfHalf(s, 0, 0, BLACK_HZ, WHITE_HZ);
      }
      ShadeOfGrey(Median(s));
    }
  }

  // ---- main results ----

  /** Whatever the picture and its ideal track, the pixel comes back. */
  ghost predicate AlwaysRead(spec: Spec, fsTx: real, fsRx: real, t0: real, n: nat, ch: Channel, c: nat, sync: int,
      trackLen: nat)
    requires spec.Valid() && n < spec.height && c < spec.width
  {
    forall img: Image, inst: seq<real> ::
      Fits(img, spec) && |inst| == trackLen && Carries(inst, ImageTones(img, spec), fsTx, t0)
      ==> Decoded(inst, fsRx, spec, sync, ch, c) == Value(img[n][c], ch)
  }

  /** Main result. A pixel comes back from every picture if and only if more than half of
      the samples looked at lie in its own dwell. */
  lemma PixelReadIff(spec: Spec, fsTx: real, fsRx: real, t0: real, n: nat, ch: Channel, c: nat, sync: int,
      trackLen: nat)
    requires spec.Valid() && fsTx > 0.0 && fsRx > 0.0 && n < spec.height && c < spec.width
    requires t0 >= 0.0 && t0 + Mul(spec.height as real, LineSamples(spec, fsTx)) <= trackLen as real
    ensures AlwaysRead(spec, fsTx, fsRx, t0, n, ch, c, sync, trackLen)
       <==> ReadsOwn(spec, fsTx, fsRx, t0, n, ch, c, sync, trackLen)
  {
    hide ReadsOwn, Decoded, ImageTones, Carries, LineSamples, Mul, Spot, TrackOf;
    if ReadsOwn(spec, fsTx, fsRx, t0, n, ch, c, sync, trackLen) {
      forall img: Image, inst: seq<real>
        | Fits(img, spec) && |inst| == trackLen && Carries(inst, ImageTones(img, spec), fsTx, t0)
        ensures Decoded(inst, fsRx, spec, sync, ch, c) == Value(img[n][c], ch)
      {
        OwnIsRead(inst, img, spec, fsTx, fsRx, t0, n, ch, c, sync);
      }
    } else {
      var img := Spot(spec, n, c, ch);
      SpotValue(spec, n, c, ch);
      ImageTime(img, spec, fsTx);
      TrackCarries(ImageTones(img, spec), fsTx, t0, trackLen);
      SpotIsLost(spec, fsTx, fsRx, t0, n, ch, c, sync, trackLen);
    }
  }

  // ---- how much drift that allows ----

  /** The farthest a pixel edge lies from its line's sync, in milliseconds. */
  function Reach(spec: Spec): (ms: real) {
    var before, behind := 2.0 * spec.scanMs + spec.porchMs, spec.syncMs + spec.porchMs + spec.scanMs;
    if before >= behind then before else behind
  }

  /** By how many samples the two clocks differ over that distance. */
  function Drift(spec: Spec, fsTx: real, fsRx: real): real {
    Samples(Reach(spec), Abs(fsRx - fsTx))
  }

  lemma RateDifference(ms: real, fsTx: real, fsRx: real)
    ensures Samples(ms, fsRx) - Samples(ms, fsTx) == Samples(ms, fsRx - fsTx)
  {
    Distribute(ms / 1000.0, fsRx - fsTx, fsTx);
  }

  lemma SamplesBetween(ms: real, reach: real, d: real)
    requires -reach <= ms <= reach
    ensures -Samples(reach, Abs(d)) <= Samples(ms, d) <= Samples(reach, Abs(d))
  {
    hide Mul;
    var x, r := ms / 1000.0, reach / 1000.0;
    Grows(x, r, Abs(d));
    Grows(-r, x, Abs(d));
    Negated(r, d);
    Negated(x, d);
  }

  lemma Negated(x: real, d: real)
    ensures Mul(-x, d) == -Mul(x, d) && Mul(x, -d) == -Mul(x, d) && Mul(-x, -d) == Mul(x, d)
    ensures Mul(-x, Abs(d)) == -Mul(x, Abs(d))
  {}

  /** Column c's left edge, relative to the line's sync, in milliseconds. */
  function EdgeMs(spec: Spec, ch: Channel, c: nat): real
    requires spec.Valid()
  {
    OffsetMs(spec, ch) + Mul(c as real, PixelMs(spec))
  }

  lemma EdgeInReach(spec: Spec, ch: Channel, c: nat)
    requires spec.Valid() && c <= spec.width
    ensures -Reach(spec) <= EdgeMs(spec, ch, c) <= Reach(spec)
  {
    hide Mul;
    var ms := PixelMs(spec);
    assert DerivedScanMs(spec) == spec.scanMs;
    Grows(0.0, c as real, ms);
    Grows(c as real, spec.width as real, ms);
    WholeScan(spec);
    Step(0, ms);
  }

  lemma WholeScan(spec: Spec)
    requires spec.Valid()
    ensures Mul(spec.width as real, PixelMs(spec)) == spec.scanMs
  {}

  /** How far the receiver's place for an edge is off the sender's. */
  function EdgeError(spec: Spec, fsTx: real, fsRx: real, t0: real, n: nat, ch: Channel, c: nat, sync: int): real
    requires spec.Valid()
  {
    sync as real - TrueSync(spec, fsTx, t0, n) + Samples(EdgeMs(spec, ch, c), fsRx - fsTx)
  }

  lemma EdgeIs(spec: Spec, fsTx: real, fsRx: real, t0: real, n: nat, ch: Channel, c: nat, sync: int)
    requires spec.Valid()
    ensures sync as real + Samples(OffsetMs(spec, ch), fsRx) + Mul(c as real, Samples(PixelMs(spec), fsRx))
         == DwellStart(spec, fsTx, t0, n, ch, c) + EdgeError(spec, fsTx, fsRx, t0, n, ch, c, sync)
  {
    hide Mul, LineSamples, Samples, ChannelStart, SyncStart, OffsetMs;
    var ms := PixelMs(spec);
    OffsetsAgree(spec, fsTx, ch);
    ScaledProduct(c as real, ms, fsRx);
    ScaledProduct(c as real, ms, fsTx);
    SamplesSum(OffsetMs(spec, ch), Mul(c as real, ms), fsRx - fsTx);
    RateDifference(OffsetMs(spec, ch), fsTx, fsRx);
    RateDifference(Mul(c as real, ms), fsTx, fsRx);
  }

  lemma EdgeErrorBounded(spec: Spec, fsTx: real, fsRx: real, t0: real, n: nat, ch: Channel, c: nat, sync: int)
    requires spec.Valid() && c <= spec.width && -0.5 <= sync as real - TrueSync(spec, fsTx, t0, n) <= 0.5
    ensures var m := Drift(spec, fsTx, fsRx) + 0.5;
      -m <= EdgeError(spec, fsTx, fsRx, t0, n, ch, c, sync) <= m
  {
    hide Samples, TrueSync, EdgeMs, Reach;
    EdgeInReach(spec, ch, c);
    SamplesBetween(EdgeMs(spec, ch, c), Reach(spec), fsRx - fsTx);
  }

  lemma NextDwell(spec: Spec, fsTx: real, t0: real, n: nat, ch: Channel, c: nat)
    requires spec.Valid()
    ensures DwellStart(spec, fsTx, t0, n, ch, c + 1)
      == DwellStart(spec, fsTx, t0, n, ch, c) + Samples(PixelMs(spec), fsTx)
  {
    hide Mul, LineSamples, Samples, ChannelStart;
    Step(c, Samples(PixelMs(spec), fsTx));
  }

  /** The middle 60 percent of a pixel of q samples that is believed to begin d0 and end d1
      samples away from where it does, with a dwell of p samples from `from`. */
  lemma WindowMostlyIn(from: real, p: real, q: real, d0: real, d1: real, m: real, w: (int, int))
    requires -m <= d0 <= m && -m <= d1 <= m && p > 2.0 * m + 3.0 && q == p + d1 - d0 && m >= 0.5
    requires w.0 == Round(from + d0 + q * 0.2)
    requires var hi := Round(from + p + d1 - q * 0.2); w.1 == if hi > w.0 then hi else w.0 + 1
    ensures MostlyIn(w, from, from + p)
    ensures w.0 as real >= from - m && w.1 as real <= from + p + m
  {
    assert q > 3.0;
    var hi := Round(from + p + d1 - q * 0.2);
    assert hi as real - w.0 as real >= q * 0.6 - 1.0;
    assert w.1 == hi;
  }

  lemma LookedAt(spec: Spec, fsTx: real, fsRx: real, t0: real, n: nat, ch: Channel, c: nat, sync: int)
    requires spec.Valid()
    ensures var q, from := Samples(PixelMs(spec), fsRx), DwellStart(spec, fsTx, t0, n, ch, c);
      var p, w := Samples(PixelMs(spec), fsTx), Looked(spec, fsRx, sync, ch, c);
      var d0, d1 := EdgeError(spec, fsTx, fsRx, t0, n, ch, c, sync),
          EdgeError(spec, fsTx, fsRx, t0, n, ch, c + 1, sync);
      && q == p + d1 - d0
      && w.0 == Round(from + d0 + q * 0.2)
      && var hi := Round(from + p + d1 - q * 0.2); w.1 == if hi > w.0 then hi else w.0 + 1
  {
    hide Mul, Samples, DwellStart, EdgeError, OffsetMs;
    OffsetsAgree(spec, fsRx, Green);
    ScanSamples(spec.scanMs, spec.width, fsRx);
    EdgeIs(spec, fsTx, fsRx, t0, n, ch, c, sync);
    EdgeIs(spec, fsTx, fsRx, t0, n, ch, c + 1, sync);
    NextDwell(spec, fsTx, t0, n, ch, c);
    Step(c, Samples(PixelMs(spec), fsRx));
  }

  /** The two clocks stay within half a pixel of each other over a line, rounding included. */
  predicate DriftFits(spec: Spec, fsTx: real, fsRx: real)
    requires spec.Valid()
  {
    Drift(spec, fsTx, fsRx) + 2.0 < 0.5 * Samples(PixelMs(spec), fsTx)
  }

  /** The track leaves that much room around the picture. */
  predicate Room(spec: Spec, fsTx: real, fsRx: real, t0: real, trackLen: nat) {
    && t0 + Samples(spec.porchMs, fsTx) >= Drift(spec, fsTx, fsRx) + 0.5
    && t0 + Mul(spec.height as real, LineSamples(spec, fsTx)) + Drift(spec, fsTx, fsRx) + 0.5 <= trackLen as real
  }

  lemma DwellInside(spec: Spec, fsTx: real, t0: real, n: nat, ch: Channel, c: nat)
    requires spec.Valid() && fsTx > 0.0 && n < spec.height && c < spec.width
    ensures DwellStart(spec, fsTx, t0, n, ch, c) >= t0 + Samples(spec.porchMs, fsTx)
    ensures DwellStart(spec, fsTx, t0, n, ch, c) + Samples(PixelMs(spec), fsTx)
      <= t0 + Mul(spec.height as real, LineSamples(spec, fsTx))
  {
    hide Mul, Samples;
    var p, line := Samples(PixelMs(spec), fsTx), LineSamples(spec, fsTx);
    SamplesNotNegative(spec.syncMs, fsTx);
    SamplesNotNegative(spec.porchMs, fsTx);
    SamplesNotNegative(spec.scanMs, fsTx);
    SamplesNotNegative(PixelMs(spec), fsTx);
    EndOfChannel(spec, fsTx, ch);
    WithinScan(spec.scanMs, spec.width, fsTx, c);
    Step(c, p);
    Step(n, line);
    Grows(n as real + 1.0, spec.height as real, line);
  }

  /** Main result. A drift below half a pixel over the reach of a line, with the sync at
      most half a sample off, leaves every pixel readable. */
  lemma SmallDriftReads(spec: Spec, fsTx: real, fsRx: real, t0: real, n: nat, ch: Channel, c: nat, sync: int,
      trackLen: nat)
    requires spec.Valid() && fsTx > 0.0 && n < spec.height && c < spec.width
    requires DriftFits(spec, fsTx, fsRx) && Room(spec, fsTx, fsRx, t0, trackLen)
    requires -0.5 <= sync as real - TrueSync(spec, fsTx, t0, n) <= 0.5
    ensures ReadsOwn(spec, fsTx, fsRx, t0, n, ch, c, sync, trackLen)
  {
    hide Mul, Samples, DwellStart, EdgeError, TrueSync, LineSamples, Looked, MostlyIn, Drift;
    var q, p := Samples(PixelMs(spec), fsRx), Samples(PixelMs(spec), fsTx);
    var m := Drift(spec, fsTx, fsRx) + 0.5;
    DriftNotNegative(spec, fsTx, fsRx);
    EdgeErrorBounded(spec, fsTx, fsRx, t0, n, ch, c, sync);
    EdgeErrorBounded(spec, fsTx, fsRx, t0, n, ch, c + 1, sync);
    LookedAt(spec, fsTx, fsRx, t0, n, ch, c, sync);
    var d0, d1 := EdgeError(spec, fsTx, fsRx, t0, n, ch, c, sync), EdgeError(spec, fsTx, fsRx, t0, n, ch, c + 1, sync);
    WindowMostlyIn(DwellStart(spec, fsTx, t0, n, ch, c), p, q, d0, d1, m, Looked(spec, fsRx, sync, ch, c));
    DwellInside(spec, fsTx, t0, n, ch, c);
  }

  lemma DriftNotNegative(spec: Spec, fsTx: real, fsRx: real)
    requires spec.Valid()
    ensures Drift(spec, fsTx, fsRx) >= 0.0
  {
    hide Mul;
    Grows(0.0, Reach(spec) / 1000.0, Abs(fsRx - fsTx));
    Step(0, Abs(fsRx - fsTx));
  }

  // ---- and how much it does not ----

  /** Over the reach of a line's first pixel the clocks are more than half a pixel apart. */
  predicate FarApart(spec: Spec, fsTx: real, fsRx: real)
    requires spec.Valid()
  {
    var twoEdges := 2.0 * (2.0 * spec.scanMs + spec.porchMs) - PixelMs(spec);
    Samples(twoEdges, Abs(fsRx - fsTx)) >= Samples(PixelMs(spec), fsTx) + 4.0
  }

  lemma WindowMisses(from: real, p: real, q: real, d0: real, d1: real, w: (int, int))
    requires p > 0.0 && q > 0.0 && q == p + d1 - d0 && (d0 + d1 >= p + 3.0 || d0 + d1 <= -p - 3.0)
    requires w.0 == Round(from + d0 + q * 0.2)
    requires var hi := Round(from + p + d1 - q * 0.2); w.1 == if hi > w.0 then hi else w.0 + 1
    ensures !MostlyIn(w, from, from + p)
  {}

  /** Main result. With the clocks that far apart the first green pixel of every line is
      looked for in its neighbours. */
  lemma LargeDriftMisses(spec: Spec, fsTx: real, fsRx: real, t0: real, n: nat, sync: int, trackLen: nat)
    requires spec.Valid() && fsTx > 0.0 && fsRx > 0.0 && FarApart(spec, fsTx, fsRx)
    requires -0.5 <= sync as real - TrueSync(spec, fsTx, t0, n) <= 0.5
    ensures !ReadsOwn(spec, fsTx, fsRx, t0, n, Green, 0, sync, trackLen)
  {
    hide Mul, Samples, DwellStart, TrueSync, LineSamples, Looked, MostlyIn;
    var ms, d := PixelMs(spec), fsRx - fsTx;
    LookedAt(spec, fsTx, fsRx, t0, n, Green, 0, sync);
    SamplesPositive(ms, fsTx, ms, spec.width);
    SamplesPositive(ms, fsRx, ms, spec.width);
    var far := 2.0 * (2.0 * spec.scanMs + spec.porchMs) - ms;
    EdgesOfFirst(spec);
    SamplesSum(EdgeMs(spec, Green, 0), EdgeMs(spec, Green, 1), d);
    SamplesSum(far, 0.0, d);
    OtherWay(far, d);
    WindowMisses(DwellStart(spec, fsTx, t0, n, Green, 0), Samples(ms, fsTx), Samples(ms, fsRx),
                 EdgeError(spec, fsTx, fsRx, t0, n, Green, 0, sync), EdgeError(spec, fsTx, fsRx, t0, n, Green, 1, sync),
                 Looked(spec, fsRx, sync, Green, 0));
  }

  lemma EdgesOfFirst(spec: Spec)
    requires spec.Valid()
    ensures EdgeMs(spec, Green, 0) + EdgeMs(spec, Green, 1)
      == -(2.0 * (2.0 * spec.scanMs + spec.porchMs) - PixelMs(spec))
  {
    hide Mul;
    assert DerivedScanMs(spec) == spec.scanMs;
    Step(0, PixelMs(spec));
  }

  lemma OtherWay(ms: real, d: real)
    ensures Samples(ms, d) == Samples(ms, Abs(d)) || Samples(ms, d) == -Samples(ms, Abs(d))
  {
    hide Mul;
    Negated(ms / 1000.0, d);
  }

  // ---- whole pictures ----

  /** Every picture comes back from the given line starts. */
  ghost predicate PictureAlwaysRead(spec: Spec, fsTx: real, fsRx: real, t0: real, syncs: seq<int>, trackLen: nat)
    requires spec.Valid() && |syncs| == spec.height
  {
    forall n, c, ch :: 0 <= n < spec.height && 0 <= c < spec.width ==>
      AlwaysRead(spec, fsTx, fsRx, t0, n, ch, c, syncs[n], trackLen)
  }

  lemma PictureReadIff(spec: Spec, fsTx: real, fsRx: real, t0: real, syncs: seq<int>, trackLen: nat)
    requires spec.Valid() && fsTx > 0.0 && fsRx > 0.0 && |syncs| == spec.height
    requires t0 >= 0.0 && t0 + Mul(spec.height as real, LineSamples(spec, fsTx)) <= trackLen as real
    ensures PictureAlwaysRead(spec, fsTx, fsRx, t0, syncs, trackLen)
       <==> forall n, c, ch :: 0 <= n < spec.height && 0 <= c < spec.width ==>
              ReadsOwn(spec, fsTx, fsRx, t0, n, ch, c, syncs[n], trackLen)
  {
    hide Mul, LineSamples, AlwaysRead, ReadsOwn;
    forall n, c, ch | 0 <= n < spec.height && 0 <= c < spec.width
      ensures AlwaysRead(spec, fsTx, fsRx, t0, n, ch, c, syncs[n], trackLen)
         <==> ReadsOwn(spec, fsTx, fsRx, t0, n, ch, c, syncs[n], trackLen)
    {
      PixelReadIff(spec, fsTx, fsRx, t0, n, ch, c, syncs[n], trackLen);
    }
  }

  /** Main result. Line starts at most half a sample off, and clocks that fit: every picture
      comes back. Clocks that are far apart: some picture does not. */
  lemma PictureUnderDrift(spec: Spec, fsTx: real, fsRx: real, t0: real, syncs: seq<int>, trackLen: nat)
    requires spec.Valid() && fsTx > 0.0 && fsRx > 0.0 && |syncs| == spec.height > 0
    requires t0 >= 0.0 && t0 + Mul(spec.height as real, LineSamples(spec, fsTx)) <= trackLen as real
    requires forall n :: 0 <= n < |syncs| ==> -0.5 <= syncs[n] as real - TrueSync(spec, fsTx, t0, n) <= 0.5
    ensures DriftFits(spec, fsTx, fsRx) && Room(spec, fsTx, fsRx, t0, trackLen)
            ==> PictureAlwaysRead(spec, fsTx, fsRx, t0, syncs, trackLen)
    ensures FarApart(spec, fsTx, fsRx) ==> !PictureAlwaysRead(spec, fsTx, fsRx, t0, syncs, trackLen)
  {
    hide Mul, LineSamples, TrueSync, PictureAlwaysRead, ReadsOwn, DriftFits, Room, FarApart;
    PictureReadIff(spec, fsTx, fsRx, t0, syncs, trackLen);
    if DriftFits(spec, fsTx, fsRx) && Room(spec, fsTx, fsRx, t0, trackLen) {
      forall n, c, ch | 0 <= n < spec.height && 0 <= c < spec.width
        ensures ReadsOwn(spec, fsTx, fsRx, t0, n, ch, c, syncs[n], trackLen)
      {
        SmallDriftReads(spec, fsTx, fsRx, t0, n, ch, c, syncs[n], trackLen);
      }
    }
    if FarApart(spec, fsTx, fsRx) {
      LargeDriftMisses(spec, fsTx, fsRx, t0, 0, syncs[0], trackLen);
    }
  }

  /** Scottie S1. */
  const SCOTTIE_S1 := Spec(320, 256, 9.0, 1.5, 138.24)

  /** At 48 kHz it survives a drift of one in two thousand and not of one in a thousand. */
  lemma ScottieS1Drift()
    ensures SCOTTIE_S1.Valid()
    ensures DriftFits(SCOTTIE_S1, 48024.0, 48000.0) && DriftFits(SCOTTIE_S1, 47976.0, 48000.0)
    ensures FarApart(SCOTTIE_S1, 48048.0, 48000.0) && FarApart(SCOTTIE_S1, 47952.0, 48000.0)
  {}
}
