/** A timeline of tones, as the encoders yield them, and the ideal frequency track
    that carries it. */
module Tones {
  import opened LeastSquares
  import opened Pixels

  datatype Tone = Tone(freq: real, ms: real)

  const FREQ_SYNC := 1200.0
  const FREQ_BLACK := 1500.0

  const FREQ_VIS_START := 1900.0
  const FREQ_WHITE := 2300.0

  /** One scan: a tone for every pixel value. */
  function ScanTones(values: seq<real>, pixelMs: real): (tones: seq<Tone>)
    ensures |tones| == |values|
  {
    if values == [] then [] else [Tone(ToneFreq(values[0]), pixelMs)] + ScanTones(values[1..], pixelMs)
  }

  // ---- the ideal frequency track ----

  /** A time in samples. */
  function Samples(ms: real, fs: real): real {
    Mul(ms / 1000.0, fs)
  }

  function Time(tones: seq<Tone>, fs: real): real {
    if tones == [] then 0.0 else Samples(tones[0].ms, fs) + Time(tones[1..], fs)
  }

  /** The tone that sounds t samples after the first began. */
  function FreqAt(tones: seq<Tone>, fs: real, t: real): real {
    if tones == [] then 0.0
    else if t < Samples(tones[0].ms, fs) then tones[0].freq
    else FreqAt(tones[1..], fs, t - Samples(tones[0].ms, fs))
  }

  /** The track holds the tones, the first starting at time t0. */
  ghost predicate Carries(inst: seq<real>, tones: seq<Tone>, fs: real, t0: real) {
    && t0 >= 0.0 && t0 + Time(tones, fs) <= |inst| as real
    && forall i ::
      0 <= i < |inst| && t0 <= i as real < t0 + Time(tones, fs) ==> inst[i] == FreqAt(tones, fs, i as real - t0)
  }

  // ---- the tone timeline ----

  predicate Forward(tones: seq<Tone>) {
    forall i :: 0 <= i < |tones| ==> tones[i].ms >= 0.0
  }

  lemma SamplesNotNegative(ms: real, fs: real)
    requires ms >= 0.0 && fs > 0.0
    ensures Samples(ms, fs) >= 0.0
  {}

  lemma {:induction false} TimeConcat(a: seq<Tone>, b: seq<Tone>, fs: real)
    ensures Time(a + b, fs) == Time(a, fs) + Time(b, fs)
  {
    hide Samples;
    if a == [] {
      assert a + b == b;
    } else {
      TimeConcat(a[1..], b, fs);
      assert (a + b)[1..] == a[1..] + b;
    }
  }

  lemma {:induction false} TimeNotNegative(tones: seq<Tone>, fs: real)
    requires Forward(tones) && fs > 0.0
    ensures Time(tones, fs) >= 0.0
  {
    hide Samples;
    if tones != [] {
      SamplesNotNegative(tones[0].ms, fs);
      TimeNotNegative(tones[1..], fs);
    }
  }

  /** Past the first tones the rest of them sounds. */
  lemma {:induction false} FreqPast(a: seq<Tone>, b: seq<Tone>, fs: real, t: real)
    requires Forward(a) && fs > 0.0 && t >= Time(a, fs)
    ensures FreqAt(a + b, fs, t) == FreqAt(b, fs, t - Time(a, fs))
  {
    hide Samples;
    if a == [] {
      assert a + b == b;
    } else {
      TimeNotNegative(a[1..], fs);
      FreqPast(a[1..], b, fs, t - Samples(a[0].ms, fs));
      assert (a + b)[1..] == a[1..] + b;
    }
  }

  lemma Step(c: nat, p: real)
    ensures Mul(c as real + 1.0, p) == Mul(c as real, p) + p && Mul(0.0, p) == 0.0
    ensures p >= 0.0 ==> Mul(c as real, p) >= 0.0
  {}

  lemma {:induction false} ScanTime(values: seq<real>, ms: real, fs: real)
    ensures Time(ScanTones(values, ms), fs) == Mul(|values| as real, Samples(ms, fs))
  {
    hide Samples, Mul;
    Step(|values|, Samples(ms, fs));
    if values != [] {
      ScanTime(values[1..], ms, fs);
      Step(|values| - 1, Samples(ms, fs));
    }
  }

  lemma {:induction false} ScanForward(values: seq<real>, ms: real)
    requires ms >= 0.0
    ensures Forward(ScanTones(values, ms))
  {
    if values != [] {
      ScanForward(values[1..], ms);
    }
  }

  /** During the dwell of pixel c its own tone sounds. */
  lemma {:induction false} ScanFreq(values: seq<real>, ms: real, after: seq<Tone>, fs: real, c: nat, t: real)
    requires c < |values| && Samples(ms, fs) >= 0.0
    requires Mul(c as real, Samples(ms, fs)) <= t < Mul(c as real, Samples(ms, fs)) + Samples(ms, fs)
    ensures FreqAt(ScanTones(values, ms) + after, fs, t) == ToneFreq(values[c])
    decreases c
  {
    hide Samples, Mul;
    var p := Samples(ms, fs);
    var tones := ScanTones(values, ms) + after;
    assert tones[0] == Tone(ToneFreq(values[0]), ms);
    assert tones[1..] == ScanTones(values[1..], ms) + after;
    Step(0, p);
    if c > 0 {
      Step(c - 1, p);
      ScanFreq(values[1..], ms, after, fs, c - 1, t - p);
    }
  }

  lemma ScaledProduct(w: real, q: real, fs: real)
    ensures Samples(Mul(w, q), fs) == Mul(w, Samples(q, fs))
  {
    assert Mul(w, q) / 1000.0 == Mul(w, q / 1000.0);
    Associate(w, q / 1000.0, fs);
  }

  lemma Undo(w: real, x: real)
    requires w != 0.0
    ensures Mul(w, x) / w == x
  {}

  lemma SamplesSum(a: real, b: real, fs: real)
    ensures Samples(a + b, fs) == Samples(a, fs) + Samples(b, fs) && Samples(-a, fs) == -Samples(a, fs)
  {
    Distribute(fs, a / 1000.0, b / 1000.0);
  }

  lemma NoTones(fs: real)
    ensures Time([], fs) == 0.0 && Forward([])
  {}

  lemma Reassociate(a: seq<Tone>, b: seq<Tone>, c: seq<Tone>, d: seq<Tone>)
    ensures a + (b + c + d) == a + b + c + d
  {}

  lemma ForwardConcat(a: seq<Tone>, b: seq<Tone>)
    ensures Forward(a) && Forward(b) ==> Forward(a + b)
  {}

  lemma Grows(a: real, b: real, p: real)
    requires a <= b && p >= 0.0
    ensures Mul(a, p) <= Mul(b, p)
  {}

  lemma SamplesPositive(scanMs: real, fs: real, ms: real, width: nat)
    requires scanMs > 0.0 && fs > 0.0
    ensures Samples(scanMs, fs) > 0.0
  {
    ProductPositive(scanMs / 1000.0, fs);
  }

  /** A scan is as long as its pixels together. */
  lemma ScanSamples(scanMs: real, width: nat, fs: real)
    requires width > 0
    ensures Mul(width as real, Samples(scanMs / width as real, fs)) == Samples(scanMs, fs)
    ensures Samples(scanMs, fs) / width as real == Samples(scanMs / width as real, fs)
  {
    var w, q := width as real, scanMs / width as real;
    assert Mul(w, q) == scanMs;
    ScaledProduct(w, q, fs);
    Undo(w, Samples(q, fs));
  }

  /** Every pixel of a scan ends inside the scan. */
  lemma WithinScan(scanMs: real, width: nat, fs: real, c: nat)
    requires scanMs > 0.0 && c < width && fs > 0.0
    ensures var p := Samples(scanMs / width as real, fs);
      Mul(c as real, p) + p <= Samples(scanMs, fs)
  {
    hide Samples;
    var p := Samples(scanMs / width as real, fs);
    ScanSamples(scanMs, width, fs);
    SamplesNotNegative(scanMs / width as real, fs);
    Grows(c as real + 1.0, width as real, p);
    Step(c, p);
  }
}
