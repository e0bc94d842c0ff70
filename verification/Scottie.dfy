/** A Scottie picture through encoder and decoder (core/encoder.py, core/decoder.py). */
module Scottie {
  import opened Prelude
  import opened Rounding
  import opened LeastSquares
  import opened Pixels
  import opened Tones

  type byte = b: int | 0 <= b < 256

  datatype Rgb = Rgb(r: byte, g: byte, b: byte)

  datatype Channel = Red | Green | Blue

  function Value(p: Rgb, ch: Channel): byte {
    match ch
    case Red => p.r
    case Green => p.g
    case Blue => p.b
  }

  /** The sizes and times of one Scottie mode, in milliseconds. */
  datatype Spec = Spec(width: nat, height: nat, syncMs: real, porchMs: real, scanMs: real)
  {
    predicate Valid() {
      width > 0 && syncMs > 0.0 && porchMs > 0.0 && scanMs > 0.0
    }

    function LineMs(): real {
      syncMs + 3.0 * porchMs + 3.0 * scanMs
    }
  }

  type Image = seq<seq<Rgb>>

  ghost predicate Fits(img: Image, spec: Spec) {
    |img| == spec.height && forall i :: 0 <= i < |img| ==> |img[i]| == spec.width
  }

  // ---- the encoder ----

  /** One colour of a row. */
  function Values(row: seq<Rgb>, ch: Channel): (vs: seq<real>)
    ensures |vs| == |row| && forall i :: 0 <= i < |row| ==> vs[i] == Value(row[i], ch) as real
  {
    seq(|row|, i requires 0 <= i < |row| => Value(row[i], ch) as real)
  }

  /** Green and blue behind a separator, red behind the sync and its porch. */
  function LineTones(row: seq<Rgb>, spec: Spec): seq<Tone>
    requires spec.Valid()
  {
    var pixelMs := spec.scanMs / spec.width as real;
    [Tone(FREQ_BLACK, spec.porchMs)] + ScanTones(Values(row, Green), pixelMs)
    + ([Tone(FREQ_BLACK, spec.porchMs)] + ScanTones(Values(row, Blue), pixelMs))
    + ([Tone(FREQ_SYNC, spec.syncMs), Tone(FREQ_BLACK, spec.porchMs)] + ScanTones(Values(row, Red), pixelMs))
  }

  /** `gen_image_tuples`. */
  function ImageTones(img: Image, spec: Spec): seq<Tone>
    requires spec.Valid()
  {
    if img == [] then [] else LineTones(img[0], spec) + ImageTones(img[1..], spec)
  }

  // ---- the decoder ----

  /** `scan_ms` as the decoder derives it from the line time. */
  function DerivedScanMs(spec: Spec): real {
    (spec.LineMs() - spec.syncMs - 3.0 * spec.porchMs) / 3.0
  }

  /** Where a channel starts, relative to the sync pulse in front of red. */
  function OffsetMs(spec: Spec, ch: Channel): real {
    match ch
    case Green => -(DerivedScanMs(spec) + spec.porchMs + DerivedScanMs(spec))
    case Blue => -DerivedScanMs(spec)
    case Red => spec.syncMs + spec.porchMs
  }

  /** The value decoded for one pixel of a line whose sync was found at `sync`. */
  function Decoded(inst: seq<real>, fs: real, spec: Spec, sync: int, ch: Channel, c: nat): int
    requires spec.Valid()
  {
    var start, span := sync as real + Samples(OffsetMs(spec, ch), fs), Samples(DerivedScanMs(spec), fs);
    Column(inst, start, span, spec.width, |inst|, false, c)
  }

  function Index(ch: Channel): nat {
    match ch
    case Red => 0
    case Green => 1
    case Blue => 2
  }

  /** One sampled channel of a row goes into the picture. */
  method StoreChannel(rgb: array3<int>, row: nat, ch: Channel, values: array<int>)
    requires row < rgb.Length0 && values.Length == rgb.Length1 && rgb.Length2 == 3
    modifies rgb
    ensures forall r, c, k :: 0 <= r < rgb.Length0 && 0 <= c < rgb.Length1 && 0 <= k < 3 ==>
      rgb[r, c, k] == if r == row && k == Index(ch) then values[c] else old(rgb[r, c, k])
  {
    forall c | 0 <= c < rgb.Length1 {
      rgb[row, c, Index(ch)] := values[c];
    }
  }

  /** The picture holds rows 0 to n as decoded, and black below. */
  ghost predicate Shows(rgb: array3<int>, inst: seq<real>, fs: real, spec: Spec, syncs: seq<int>, n: nat)
    requires spec.Valid() && rgb.Length0 == spec.height && rgb.Length1 == spec.width && rgb.Length2 == 3
    reads rgb
  {
    forall r, c, ch :: 0 <= r < spec.height && 0 <= c < spec.width ==>
      rgb[r, c, Index(ch)] == if r < n && r < |syncs| then Decoded(inst, fs, spec, syncs[r], ch, c) else 0
  }

  /** `_decode_scottie_rgb`; `cancelSeen` is what each look at the cancel event shows. */
  method DecodeScottieRgb(inst: seq<real>, fs: real, spec: Spec, syncs: seq<int>, cancelSeen: seq<bool>)
      returns (image: Option<array3<int>>)
    requires spec.Valid() && |syncs| <= spec.height && |cancelSeen| == |syncs|
    ensures image.None? <==> true in cancelSeen
    ensures image.Some? ==>
      fresh(image.value) && image.value.Length0 == spec.height && image.value.Length1 == spec.width
        && image.value.Length2 == 3
    ensures image.Some? ==> Shows(image.value, inst, fs, spec, syncs, |syncs|)
  {
    hide Column, Samples, OffsetMs, DerivedScanMs;
    var rgb := new int[spec.height, spec.width, 3]((_, _, _) => 0);
    var span := Samples(DerivedScanMs(spec), fs);
    for row := 0 to |syncs|
      invariant true !in cancelSeen[..row]
      invariant Shows(rgb, inst, fs, spec, syncs, row)
    {
      if cancelSeen[row] {
        return None;
      }
      var at := syncs[row] as real;
      var green := SamplePixels(inst, at + Samples(OffsetMs(spec, Green), fs), span, spec.width, |inst|, false);
      StoreChannel(rgb, row, Green, green);
      var blue := SamplePixels(inst, at + Samples(OffsetMs(spec, Blue), fs), span, spec.width, |inst|, false);
      StoreChannel(rgb, row, Blue, blue);
      var red := SamplePixels(inst, at + Samples(OffsetMs(spec, Red), fs), span, spec.width, |inst|, false);
      StoreChannel(rgb, row, Red, red);
    }
    assert cancelSeen[..|syncs|] == cancelSeen;
    image := Some(rgb);
  }

  // ---- where everything lies ----

  function LineSamples(spec: Spec, fs: real): real {
    Samples(spec.syncMs, fs) + 3.0 * Samples(spec.porchMs, fs) + 3.0 * Samples(spec.scanMs, fs)
  }

  /** Where a channel's scan starts within its line. */
  function ChannelStart(spec: Spec, fs: real, ch: Channel): real {
    var sep, scan := Samples(spec.porchMs, fs), Samples(spec.scanMs, fs);
    match ch
    case Green => sep
    case Blue => 2.0 * sep + scan
    case Red => 3.0 * sep + 2.0 * scan + Samples(spec.syncMs, fs)
  }

  /** Where the sync pulse starts within its line. */
  function SyncStart(spec: Spec, fs: real): real {
    2.0 * Samples(spec.porchMs, fs) + 2.0 * Samples(spec.scanMs, fs)
  }

  /** The decoder's offsets agree with the encoder's layout. */
  lemma OffsetsAgree(spec: Spec, fs: real, ch: Channel)
    ensures SyncStart(spec, fs) + Samples(OffsetMs(spec, ch), fs) == ChannelStart(spec, fs, ch)
    ensures DerivedScanMs(spec) == spec.scanMs
  {
    hide Samples;
    var scan, porch := spec.scanMs, spec.porchMs;
    assert DerivedScanMs(spec) == scan;
    SamplesSum(scan + porch + scan, 0.0, fs);
    SamplesSum(scan + porch, scan, fs);
    SamplesSum(scan, porch, fs);
    SamplesSum(spec.syncMs, porch, fs);
  }

  /** The parts of a line and how long they last. */
  lemma LineParts(row: seq<Rgb>, spec: Spec, fs: real) returns (green: seq<Tone>, blue: seq<Tone>, red: seq<Tone>)
    requires spec.Valid() && |row| == spec.width && fs > 0.0
    ensures var ms := spec.scanMs / spec.width as real;
      && green == [Tone(FREQ_BLACK, spec.porchMs)] + ScanTones(Values(row, Green), ms)
      && blue == [Tone(FREQ_BLACK, spec.porchMs)] + ScanTones(Values(row, Blue), ms)
      && red == [Tone(FREQ_SYNC, spec.syncMs), Tone(FREQ_BLACK, spec.porchMs)] + ScanTones(Values(row, Red), ms)
    ensures LineTones(row, spec) == green + blue + red && Forward(green) && Forward(blue) && Forward(red)
    ensures Time(green, fs) == Samples(spec.porchMs, fs) + Samples(spec.scanMs, fs) && Time(blue, fs) == Time(green, fs)
    ensures Time(red, fs) == Samples(spec.syncMs, fs) + Samples(spec.porchMs, fs) + Samples(spec.scanMs, fs)
  {
    hide Samples, Mul;
    var ms := spec.scanMs / spec.width as real;
    var g, b, r := ScanTones(Values(row, Green), ms), ScanTones(Values(row, Blue), ms), ScanTones(Values(row, Red), ms);
    var sep := [Tone(FREQ_BLACK, spec.porchMs)];
    var sync := [Tone(FREQ_SYNC, spec.syncMs), Tone(FREQ_BLACK, spec.porchMs)];
    ScanSamples(spec.scanMs, spec.width, fs);
    ScanTime(Values(row, Green), ms, fs);
    ScanTime(Values(row, Blue), ms, fs);
    ScanTime(Values(row, Red), ms, fs);
    ScanForward(Values(row, Green), ms);
    ScanForward(Values(row, Blue), ms);
    ScanForward(Values(row, Red), ms);
    TwoTones(spec.syncMs, spec.porchMs, fs);
    TimeConcat(sep, g, fs);
    TimeConcat(sep, b, fs);
    TimeConcat(sync, r, fs);
    green, blue, red := sep + g, sep + b, sync + r;
  }

  /** A channel's tones inside its line. */
  lemma ChannelInLine(row: seq<Rgb>, spec: Spec, fs: real, ch: Channel) returns (before: seq<Tone>, after: seq<Tone>)
    requires spec.Valid() && |row| == spec.width && fs > 0.0
    ensures LineTones(row, spec) == before + ScanTones(Values(row, ch), spec.scanMs / spec.width as real) + after
    ensures Time(before, fs) == ChannelStart(spec, fs, ch) && Forward(before) && Forward(LineTones(row, spec))
    ensures Time(LineTones(row, spec), fs) == LineSamples(spec, fs)
  {
    hide Samples, Mul, LineTones, ScanTones, Time;
    var green, blue, red := LineParts(row, spec, fs);
    var scan := ScanTones(Values(row, ch), spec.scanMs / spec.width as real);
    var sep := [Tone(FREQ_BLACK, spec.porchMs)];
    var sync := [Tone(FREQ_SYNC, spec.syncMs), Tone(FREQ_BLACK, spec.porchMs)];
    TwoTones(spec.syncMs, spec.porchMs, fs);
    TimeConcat(green, blue, fs);
    TimeConcat(green + blue, red, fs);
    match ch
    case Green =>
      before, after := sep, blue + red;
      assert green + blue + red == sep + scan + (blue + red);
    case Blue =>
      before, after := green + sep, red;
      TimeConcat(green, sep, fs);
      assert green + (sep + scan) + red == green + sep + scan + red;
    case Red =>
      before, after := green + blue + sync, [];
      TimeConcat(green + blue, sync, fs);
      assert green + blue + (sync + scan) == green + blue + sync + scan + [];
  }

  lemma TwoTones(syncMs: real, porchMs: real, fs: real)
    ensures Time([Tone(FREQ_BLACK, porchMs)], fs) == Samples(porchMs, fs)
    ensures Time([Tone(FREQ_SYNC, syncMs), Tone(FREQ_BLACK, porchMs)], fs) == Samples(syncMs, fs) + Samples(porchMs, fs)
  {
    hide Samples;
    var two := [Tone(FREQ_SYNC, syncMs), Tone(FREQ_BLACK, porchMs)];
    assert two[1..] == [Tone(FREQ_BLACK, porchMs)];
  }

  /** A line's tones inside the picture. */
  lemma {:induction false} LineInImage(img: Image, spec: Spec, fs: real, n: nat)
      returns (before: seq<Tone>, after: seq<Tone>)
    requires spec.Valid() && fs > 0.0 && n < |img| && forall i :: 0 <= i < |img| ==> |img[i]| == spec.width
    ensures ImageTones(img, spec) == before + LineTones(img[n], spec) + after
    ensures Time(before, fs) == Mul(n as real, LineSamples(spec, fs)) && Forward(before)
    ensures Time(ImageTones(img, spec), fs) >= Time(before, fs) + LineSamples(spec, fs)
    decreases n
  {
    hide Mul, LineTones, LineSamples, Samples, Time, ChannelStart, ScanTones, Forward;
    var line, rest := LineTones(img[0], spec), ImageTones(img[1..], spec);
    var b0, a0 := ChannelInLine(img[0], spec, fs, Green);
    ImageForward(img[1..], spec, fs);
    TimeNotNegative(rest, fs);
    TimeConcat(line, rest, fs);
    Step(0, LineSamples(spec, fs));
    if n == 0 {
      NoTones(fs);
      before, after := [], rest;
      assert [] + line + rest == line + rest;
    } else {
      Step(n - 1, LineSamples(spec, fs));
      var b, a := LineInImage(img[1..], spec, fs, n - 1);
      TimeConcat(line, b, fs);
      ForwardConcat(line, b);
      Reassociate(line, b, LineTones(img[n], spec), a);
      before, after := line + b, a;
    }
  }

  lemma {:induction false} ImageForward(img: Image, spec: Spec, fs: real)
    requires spec.Valid() && fs > 0.0 && forall i :: 0 <= i < |img| ==> |img[i]| == spec.width
    ensures Forward(ImageTones(img, spec))
  {
    hide LineTones, LineSamples, Forward, ChannelStart, ScanTones, Samples;
    NoTones(fs);
    if img != [] {
      ForwardConcat(LineTones(img[0], spec), ImageTones(img[1..], spec));
      var b, a := ChannelInLine(img[0], spec, fs, Green);
      ImageForward(img[1..], spec, fs);
    }
  }

  // ---- main results ----

  /** A pixel's tones inside the whole picture. */
  lemma ChannelInImage(img: Image, spec: Spec, fs: real, n: nat, ch: Channel)
      returns (before: seq<Tone>, after: seq<Tone>)
    requires spec.Valid() && fs > 0.0 && Fits(img, spec) && n < |img|
    ensures var scan := ScanTones(Values(img[n], ch), spec.scanMs / spec.width as real);
      && ImageTones(img, spec) == before + (scan + after) && Forward(before)
      && Time(before, fs) == Mul(n as real, LineSamples(spec, fs)) + ChannelStart(spec, fs, ch)
      && Time(ImageTones(img, spec), fs) >= Time(before, fs) + Samples(spec.scanMs, fs)
  {
    hide Mul, LineTones, LineSamples, Samples, ScanTones, ImageTones, ChannelStart, Time, Forward;
    var b1, a1 := LineInImage(img, spec, fs, n);
    var b2, a2 := ChannelInLine(img[n], spec, fs, ch);
    var scan := ScanTones(Values(img[n], ch), spec.scanMs / spec.width as real);
    before, after := b1 + b2, a2 + a1;
    TimeConcat(b1, b2, fs);
    ForwardConcat(b1, b2);
    assert b1 + (b2 + scan + a2) + a1 == b1 + b2 + (scan + (a2 + a1));
    EndOfChannel(spec, fs, ch);
  }

  /** Every channel ends inside its line. */
  lemma EndOfChannel(spec: Spec, fs: real, ch: Channel)
    requires spec.Valid() && fs > 0.0
    ensures ChannelStart(spec, fs, ch) + Samples(spec.scanMs, fs) <= LineSamples(spec, fs)
  {
    hide Samples;
    SamplesNotNegative(spec.syncMs, fs);
    SamplesNotNegative(spec.porchMs, fs);
    SamplesNotNegative(spec.scanMs, fs);
  }

  /** Where the sync pulse of line n really is. */
  function TrueSync(spec: Spec, fs: real, t0: real, n: nat): real {
    t0 + Mul(n as real, LineSamples(spec, fs)) + SyncStart(spec, fs)
  }

  /** Main step. With at least five samples to a pixel and the sync found at most half a
      sample off, every pixel is decoded to the value that was encoded. */
  lemma PixelSurvives(inst: seq<real>, img: Image, spec: Spec, fs: real, t0: real, n: nat, c: nat, ch: Channel,
      sync: int)
    requires spec.Valid() && fs > 0.0 && Fits(img, spec) && n < |img| && c < spec.width
    requires Carries(inst, ImageTones(img, spec), fs, t0)
    requires Samples(spec.scanMs / spec.width as real, fs) >= 5.0
    requires -0.5 <= sync as real - TrueSync(spec, fs, t0, n) <= 0.5
    ensures Decoded(inst, fs, spec, sync, ch, c) == Value(img[n][c], ch)
  {
    hide Mul, LineSamples, Samples, ScanTones, ImageTones, ChannelStart, SyncStart, OffsetMs, DerivedScanMs, Time,
      FreqAt, Window, Column, Forward, ToneFreq;
    var ms := spec.scanMs / spec.width as real;
    var p, span := Samples(ms, fs), Samples(spec.scanMs, fs);
    var before, after := ChannelInImage(img, spec, fs, n, ch);
    OffsetsAgree(spec, fs, ch);
    ScanSamples(spec.scanMs, spec.width, fs);
    WithinScan(spec.scanMs, spec.width, fs, c);
    var start, truth := sync as real + Samples(OffsetMs(spec, ch), fs), t0 + Time(before, fs);
    var w := Window(start, p, c);
    WindowInside(start, truth, p, c, Mul(c as real, p));
    Step(c, p);
    TimeNotNegative(before, fs);
    forall i | w.0 <= i < w.1 ensures inst[i] == ByteToFreq(Value(img[n][c], ch)) {
      var t := i as real - t0;
      FreqPast(before, ScanTones(Values(img[n], ch), ms) + after, fs, t);
      ScanFreq(Values(img[n], ch), ms, after, fs, c, t - Time(before, fs));
    }
    SamplesPositive(spec.scanMs, fs, ms, spec.width);
    ColumnOfTone(inst, start, span, spec.width, c, Value(img[n][c], ch));
  }

  /** Main result. Decoding the ideal track of an encoded picture, of any size, gives
      back the picture. */
  lemma PictureRoundTrip(inst: seq<real>, img: Image, spec: Spec, fs: real, t0: real, syncs: seq<int>)
    requires spec.Valid() && fs > 0.0 && Fits(img, spec) && |syncs| == |img|
    requires Carries(inst, ImageTones(img, spec), fs, t0)
    requires Samples(spec.scanMs / spec.width as real, fs) >= 5.0
    requires forall n :: 0 <= n < |syncs| ==> -0.5 <= syncs[n] as real - TrueSync(spec, fs, t0, n) <= 0.5
    ensures forall n, c, ch :: 0 <= n < |img| && 0 <= c < spec.width ==>
      Decoded(inst, fs, spec, syncs[n], ch, c) == Value(img[n][c], ch)
  {
    hide Decoded, TrueSync, ImageTones, Carries, Samples;
    forall n, c, ch | 0 <= n < |img| && 0 <= c < spec.width
      ensures Decoded(inst, fs, spec, syncs[n], ch, c) == Value(img[n][c], ch)
    {
      PixelSurvives(inst, img, spec, fs, t0, n, c, ch, syncs[n]);
    }
  }
}
