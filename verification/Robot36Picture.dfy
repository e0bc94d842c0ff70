/** A Robot 36 picture through the line-pair encoder and the decoder (core/encoder.py,
    core/decoder.py, core/robot36_dsp.py). */
module Robot36Picture {
  import opened Rounding
  import opened LeastSquares
  import opened Pixels
  import opened Tones
  import opened Robot36

  type byte = b: int | 0 <= b < 256

  datatype Ycc = Ycc(y: byte, cb: byte, cr: byte)

  type Picture = seq<seq<Ycc>>

  const SYNC_MS := 9.0
  const SYNC_PORCH_MS := 3.0
  const Y_SCAN_MS := 88.0
  const GAP_MS := 4.5
  const PORCH_MS := 1.5
  const C_SCAN_MS := 44.0

  /** Rows come in pairs of one width. */
  ghost predicate Paired(img: Picture, w: nat) {
    w > 0 && |img| % 2 == 0 && forall i :: 0 <= i < |img| ==> |img[i]| == w
  }

  // ---- the encoder ----

  function Average(a: byte, b: byte): (v: real)
    ensures 0.0 <= v <= 255.0
  {
    (a as real + b as real) / 2.0
  }

  /** The chroma of a pair of rows: Cr goes out with the even row, Cb with the odd one. */
  function PairCr(img: Picture, r: nat, c: nat): (v: real)
    requires r - r % 2 + 1 < |img| && c < |img[r - r % 2]| && c < |img[r - r % 2 + 1]|
    ensures 0.0 <= v <= 255.0
  {
    Average(img[r - r % 2][c].cr, img[r - r % 2 + 1][c].cr)
  }

  function PairCb(img: Picture, r: nat, c: nat): (v: real)
    requires r - r % 2 + 1 < |img| && c < |img[r - r % 2]| && c < |img[r - r % 2 + 1]|
    ensures 0.0 <= v <= 255.0
  {
    Average(img[r - r % 2][c].cb, img[r - r % 2 + 1][c].cb)
  }

  function LumaValues(img: Picture, w: nat, r: nat): (vs: seq<real>)
    requires Paired(img, w) && r < |img|
    ensures |vs| == w && forall c :: 0 <= c < w ==> vs[c] == img[r][c].y as real
  {
    seq(w, c requires 0 <= c < w => img[r][c].y as real)
  }

  function ChromaValues(img: Picture, w: nat, r: nat): (vs: seq<real>)
    requires Paired(img, w) && r < |img|
    ensures |vs| == w && forall c :: 0 <= c < w ==> vs[c] == if r % 2 == 0 then PairCr(img, r, c) else PairCb(img, r, c)
  {
    seq(w, c requires 0 <= c < w => if r % 2 == 0 then PairCr(img, r, c) else PairCb(img, r, c))
  }

  const HEAD := [Tone(FREQ_SYNC, SYNC_MS), Tone(FREQ_BLACK, SYNC_PORCH_MS)]

  function Gap(r: nat): seq<Tone> {
    [Tone(if r % 2 == 0 then FREQ_BLACK else FREQ_WHITE, GAP_MS), Tone(FREQ_VIS_START, PORCH_MS)]
  }

  /** One half of a line pair: the row's luma and the pair's chroma component. */
  function RowTones(img: Picture, w: nat, r: nat): seq<Tone>
    requires Paired(img, w) && r < |img|
  {
    HEAD + ScanTones(LumaValues(img, w, r), Y_SCAN_MS / w as real)
    + Gap(r) + ScanTones(ChromaValues(img, w, r), C_SCAN_MS / w as real)
  }

  /** `gen_image_tuples` from row r on. */
  function PictureTones(img: Picture, w: nat, r: nat): seq<Tone>
    requires Paired(img, w) && r <= |img|
    decreases |img| - r
  {
    if r == |img| then [] else RowTones(img, w, r) + PictureTones(img, w, r + 1)
  }

  // ---- the decoder ----

  const Y_OFFSET_MS := 12.0
  const C_OFFSET_MS := 106.0

  /** One scan of a line whose sync was found at `start`, as `sample_scan` reads it. */
  function ReadScan(inst: seq<real>, fs: real, w: nat, start: int, offsetMs: real, scanMs: real): (row: Row)
    requires w > 0
    ensures |row| == w
  {
    var scanStart, pixelSpan := start as real + Samples(offsetMs, fs), Samples(scanMs, fs) / w as real;
    seq(w, c requires 0 <= c < w => SamplePixel(inst, Center(scanStart, pixelSpan, c)))
  }

  function ReadLuma(inst: seq<real>, fs: real, w: nat, starts: seq<int>): (ys: seq<Row>)
    requires w > 0
    ensures |ys| == |starts|
    ensures forall r :: 0 <= r < |starts| ==> ys[r] == ReadScan(inst, fs, w, starts[r], Y_OFFSET_MS, Y_SCAN_MS)
  {
    seq(|starts|, r requires 0 <= r < |starts| => ReadScan(inst, fs, w, starts[r], Y_OFFSET_MS, Y_SCAN_MS))
  }

  function ReadChroma(inst: seq<real>, fs: real, w: nat, starts: seq<int>): (cs: seq<Row>)
    requires w > 0
    ensures |cs| == |starts|
    ensures forall r :: 0 <= r < |starts| ==> cs[r] == ReadScan(inst, fs, w, starts[r], C_OFFSET_MS, C_SCAN_MS)
  {
    seq(|starts|, r requires 0 <= r < |starts| => ReadScan(inst, fs, w, starts[r], C_OFFSET_MS, C_SCAN_MS))
  }

  // ---- where everything lies ----

  function LineSamples(fs: real): real {
    Samples(SYNC_MS, fs) + Samples(SYNC_PORCH_MS, fs) + Samples(Y_SCAN_MS, fs) + Samples(GAP_MS, fs)
      + Samples(PORCH_MS, fs)
    + Samples(C_SCAN_MS, fs)
  }

  /** Where line r really begins. */
  function TrueStart(fs: real, t0: real, r: nat): real {
    t0 + Mul(r as real, LineSamples(fs))
  }

  lemma OffsetsAgree(fs: real)
    ensures Samples(Y_OFFSET_MS, fs) == Samples(SYNC_MS, fs) + Samples(SYNC_PORCH_MS, fs)
    ensures Samples(C_OFFSET_MS, fs)
      == Samples(SYNC_MS, fs) + Samples(SYNC_PORCH_MS, fs) + Samples(Y_SCAN_MS, fs) + Samples(GAP_MS, fs)
        + Samples(PORCH_MS, fs)
  {
    hide Samples;
    SamplesSum(SYNC_MS, SYNC_PORCH_MS, fs);
    SamplesSum(Y_OFFSET_MS, Y_SCAN_MS, fs);
    SamplesSum(Y_OFFSET_MS + Y_SCAN_MS, GAP_MS, fs);
    SamplesSum(Y_OFFSET_MS + Y_SCAN_MS + GAP_MS, PORCH_MS, fs);
  }

  lemma PairTime(a: Tone, b: Tone, fs: real)
    ensures Time([a, b], fs) == Samples(a.ms, fs) + Samples(b.ms, fs)
    ensures a.ms >= 0.0 && b.ms >= 0.0 ==> Forward([a, b])
  {
    hide Samples;
    assert [a, b] == [a] + [b];
    TimeConcat([a], [b], fs);
    OneTone(a, fs);
    OneTone(b, fs);
  }

  lemma OneTone(a: Tone, fs: real)
    ensures Time([a], fs) == Samples(a.ms, fs)
  {
    hide Samples;
    assert [a][1..] == [];
  }

  /** The two scans inside a row and the row's length. */
  lemma RowParts(img: Picture, w: nat, r: nat, fs: real)
    requires Paired(img, w) && r < |img| && fs > 0.0
    ensures var luma := ScanTones(LumaValues(img, w, r), Y_SCAN_MS / w as real);
      var before := HEAD + luma + Gap(r);
      && Forward(HEAD) && Forward(before) && Forward(RowTones(img, w, r))
      && Time(HEAD, fs) == Samples(Y_OFFSET_MS, fs) && Time(before, fs) == Samples(C_OFFSET_MS, fs)
      && Time(RowTones(img, w, r), fs) == LineSamples(fs)
  {
    hide Samples, Mul, Time, Forward, LumaValues, ChromaValues, ScanTones;
    var luma, chroma := LumaValues(img, w, r), ChromaValues(img, w, r);
    var ys, cs := ScanTones(luma, Y_SCAN_MS / w as real), ScanTones(chroma, C_SCAN_MS / w as real);
    OffsetsAgree(fs);
    PairTime(HEAD[0], HEAD[1], fs);
    PairTime(Gap(r)[0], Gap(r)[1], fs);
    ScanSamples(Y_SCAN_MS, w, fs);
    ScanSamples(C_SCAN_MS, w, fs);
    ScanTime(luma, Y_SCAN_MS / w as real, fs);
    ScanTime(chroma, C_SCAN_MS / w as real, fs);
    ScanForward(luma, Y_SCAN_MS / w as real);
    ScanForward(chroma, C_SCAN_MS / w as real);
    TimeConcat(HEAD, ys, fs);
    TimeConcat(HEAD + ys, Gap(r), fs);
    TimeConcat(HEAD + ys + Gap(r), cs, fs);
    ForwardConcat(HEAD, ys);
    ForwardConcat(HEAD + ys, Gap(r));
    ForwardConcat(HEAD + ys + Gap(r), cs);
  }

  /** Row r inside the rest of the picture from row `from` on. */
  lemma {:induction false} RowInPicture(img: Picture, w: nat, fs: real, from: nat, r: nat)
      returns (before: seq<Tone>, after: seq<Tone>)
    requires Paired(img, w) && from <= r < |img| && fs > 0.0
    ensures PictureTones(img, w, from) == before + (RowTones(img, w, r) + after) && Forward(before)
    ensures Time(before, fs) == Mul((r - from) as real, LineSamples(fs))
    ensures Time(PictureTones(img, w, from), fs) >= Time(before, fs) + LineSamples(fs)
    decreases r - from
  {
    hide Samples, Mul, Time, Forward, RowTones, LineSamples, Paired;
    var row, rest := RowTones(img, w, from), PictureTones(img, w, from + 1);
    RowParts(img, w, from, fs);
    TimeConcat(row, rest, fs);
    Step(0, LineSamples(fs));
    if from == r {
      NoTones(fs);
      RestNotNegative(img, w, fs, from + 1);
      before, after := [], rest;
      assert [] + (row + rest) == row + rest;
    } else {
      Step(r - from - 1, LineSamples(fs));
      var b, a := RowInPicture(img, w, fs, from + 1, r);
      TimeConcat(row, b, fs);
      ForwardConcat(row, b);
      before, after := row + b, a;
      assert row + (b + (RowTones(img, w, r) + a)) == row + b + (RowTones(img, w, r) + a);
    }
  }

  lemma {:induction false} RestNotNegative(img: Picture, w: nat, fs: real, from: nat)
    requires Paired(img, w) && from <= |img| && fs > 0.0
    ensures Time(PictureTones(img, w, from), fs) >= 0.0
    decreases |img| - from
  {
    hide Samples, Time, RowTones, Paired, Forward;
    if from == |img| {
      NoTones(fs);
    } else {
      RestNotNegative(img, w, fs, from + 1);
      RowParts(img, w, from, fs);
      TimeNotNegative(RowTones(img, w, from), fs);
      TimeConcat(RowTones(img, w, from), PictureTones(img, w, from + 1), fs);
    }
  }

  // ---- main results ----

  /** A pixel of a scan that starts `offset` samples into the track's tones. */
  lemma ScanPixel(inst: seq<real>, fs: real, t0: real, tones: seq<Tone>, before: seq<Tone>, values: seq<real>,
      after: seq<Tone>, scanMs: real, w: nat, start: real, c: nat)
    requires fs > 0.0 && scanMs > 0.0 && c < w == |values| && 0.0 <= values[c] <= 255.0
    requires tones == before + (ScanTones(values, scanMs / w as real) + after) && Forward(before)
      && Carries(inst, tones, fs, t0)
    requires Time(tones, fs) >= Time(before, fs) + Samples(scanMs, fs)
    requires Samples(scanMs / w as real, fs) > 6.0 && -0.5 <= start - (t0 + Time(before, fs)) <= 0.5
    ensures SamplePixel(inst, Center(start, Samples(scanMs, fs) / w as real, c)) == Round(values[c])
  {
    hide Samples, Mul, Time, Forward, FreqAt, ScanTones, SamplePixel, ToneFreq;
    var ms := scanMs / w as real;
    var p, base := Samples(ms, fs), t0 + Time(before, fs);
    ScanSamples(scanMs, w, fs);
    WithinScan(scanMs, w, fs, c);
    HalfStep(c, p);
    Step(c, p);
    TimeNotNegative(before, fs);
    var truth := base + Mul(c as real, p) + p / 2.0;
    forall i | 0 <= i < |inst| && truth - p / 2.0 <= i as real < truth + p / 2.0
      ensures inst[i] == ToneFreq(values[c])
    {
      FreqPast(before, ScanTones(values, ms) + after, fs, i as real - t0);
      ScanFreq(values, ms, after, fs, c, i as real - t0 - Time(before, fs));
    }
    PixelOfTone(inst, Center(start, p, c), truth, p, values[c]);
  }

  lemma HalfStep(c: nat, p: real)
    ensures Mul(c as real + 0.5, p) == Mul(c as real, p) + p / 2.0
  {}

  /** Main step. Luma comes back exactly, chroma as the pair's average, rounded. */
  lemma RowIsRead(inst: seq<real>, img: Picture, w: nat, fs: real, t0: real, start: int, r: nat, c: nat)
    requires Paired(img, w) && r < |img| && c < w && fs > 0.0
    requires Carries(inst, PictureTones(img, w, 0), fs, t0)
    requires Samples(C_SCAN_MS / w as real, fs) > 6.0 && -0.5 <= start as real - TrueStart(fs, t0, r) <= 0.5
    ensures ReadScan(inst, fs, w, start, Y_OFFSET_MS, Y_SCAN_MS)[c] == img[r][c].y
    ensures ReadScan(inst, fs, w, start, C_OFFSET_MS, C_SCAN_MS)[c]
      == Round(if r % 2 == 0 then PairCr(img, r, c) else PairCb(img, r, c))
  {
    hide Samples, Mul, Time, Forward, FreqAt, ScanTones, SamplePixel, Center, PictureTones, Carries, LineSamples,
      PairCr, PairCb;
    var b, a := RowInPicture(img, w, fs, 0, r);
    RowParts(img, w, r, fs);
    var ys, cs := ScanTones(LumaValues(img, w, r), Y_SCAN_MS / w as real),
        ScanTones(ChromaValues(img, w, r), C_SCAN_MS / w as real);
    var tones := PictureTones(img, w, 0);
    TimeConcat(b, HEAD, fs);
    ForwardConcat(b, HEAD);
    TimeConcat(b, HEAD + ys + Gap(r), fs);
    ForwardConcat(b, HEAD + ys + Gap(r));
    assert tones == (b + HEAD) + (ys + (Gap(r) + cs + a));
    assert tones == (b + (HEAD + ys + Gap(r))) + (cs + a);
    ScansFit(fs);
    LumaIsWider(w, fs);
    ScanPixel(inst, fs, t0, tones, b + HEAD, LumaValues(img, w, r), Gap(r) + cs + a, Y_SCAN_MS, w,
              start as real + Samples(Y_OFFSET_MS, fs), c);
    ScanPixel(inst, fs, t0, tones, b + (HEAD + ys + Gap(r)), ChromaValues(img, w, r), a, C_SCAN_MS, w,
              start as real + Samples(C_OFFSET_MS, fs), c);
    RoundUnique(img[r][c].y as real, img[r][c].y);
  }

  /** Both scans end inside their line. */
  lemma ScansFit(fs: real)
    requires fs > 0.0
    ensures Samples(Y_OFFSET_MS, fs) + Samples(Y_SCAN_MS, fs) <= LineSamples(fs)
    ensures Samples(C_OFFSET_MS, fs) + Samples(C_SCAN_MS, fs) <= LineSamples(fs)
  {
    hide Samples;
    OffsetsAgree(fs);
    SamplesNotNegative(GAP_MS, fs);
    SamplesNotNegative(PORCH_MS, fs);
    SamplesNotNegative(C_SCAN_MS, fs);
  }

  lemma LumaIsWider(w: nat, fs: real)
    requires w > 0 && Samples(C_SCAN_MS / w as real, fs) > 6.0
    ensures Samples(Y_SCAN_MS / w as real, fs) > 6.0
  {
    hide Samples;
    SamplesSum(C_SCAN_MS / w as real, C_SCAN_MS / w as real, fs);
    assert C_SCAN_MS / w as real + C_SCAN_MS / w as real == Y_SCAN_MS / w as real;
  }

  /** Main result. Decoding the ideal track of a Robot 36 picture of any even height gives
      every pixel its own luma and the rounded average chroma of its pair of rows. */
  lemma PictureIsRead(inst: seq<real>, img: Picture, w: nat, fs: real, t0: real, starts: seq<int>, r: nat, c: nat)
    requires Paired(img, w) && |starts| == |img| && r < |img| && c < w && fs > 0.0
    requires Carries(inst, PictureTones(img, w, 0), fs, t0)
    requires Samples(C_SCAN_MS / w as real, fs) > 6.0
    requires forall n :: 0 <= n < |starts| ==> -0.5 <= starts[n] as real - TrueStart(fs, t0, n) <= 0.5
    ensures var ys, cs := ReadLuma(inst, fs, w, starts), ReadChroma(inst, fs, w, starts);
      && Sampled(ys, cs, w, |img|)
      && |Luma(ys, w, r)| == |BatchCb(cs, w, |img|, r)| == |BatchCr(cs, w, r)| == w
      && BatchRow(ys, cs, w, |img|, r)[c] == ToRgb(img[r][c].y, Round(PairCb(img, r, c)), Round(PairCr(img, r, c)))
  {
    hide ReadScan, Samples, Carries, PictureTones, TrueStart, ToRgb, PairCr, PairCb, BatchRow, BatchCb, BatchCr, Luma,
      ReadLuma, ReadChroma, Sampled, Paired, Reads, OnTime;
    var ys, cs := ReadLuma(inst, fs, w, starts), ReadChroma(inst, fs, w, starts);
    AllOnTime(starts, fs, t0);
    PairIsInside(img, w, r);
    var even := r - r % 2;
    EvenAndOdd(r);
    RowReads(inst, img, w, fs, t0, starts, r, c);
    RowReads(inst, img, w, fs, t0, starts, even, c);
    RowReads(inst, img, w, fs, t0, starts, even + 1, c);
    SamePair(img, w, r, c);
    ReadIsSampled(inst, fs, w, starts);
    RowsAreWide(ys, cs, w, |img|);
    PixelOfReads(ys, cs, w, |img|, r, c, img[r][c].y, Round(PairCr(img, r, c)), Round(PairCb(img, r, c)));
  }

  lemma AllOnTime(starts: seq<int>, fs: real, t0: real)
    requires forall n :: 0 <= n < |starts| ==> -0.5 <= starts[n] as real - TrueStart(fs, t0, n) <= 0.5
    ensures OnTime(starts, fs, t0)
  {
    hide TrueStart;
  }

  lemma EvenAndOdd(r: nat)
    ensures (r - r % 2) % 2 == 0 && (r - r % 2 + 1) % 2 == 1
  {}

  lemma PixelOfReads(ys: seq<Row>, cs: seq<Row>, w: nat, h: nat, r: nat, c: nat, y: int, cr: int, cb: int)
    requires Sampled(ys, cs, w, h) && |ys| == h && h % 2 == 0 && r < h && c < w
    requires |Luma(ys, w, r)| == |BatchCb(cs, w, h, r)| == |BatchCr(cs, w, r)| == w
    requires Reads(ys, r, c, y) && Reads(cs, r - r % 2, c, cr) && Reads(cs, r - r % 2 + 1, c, cb)
    ensures BatchRow(ys, cs, w, h, r)[c] == ToRgb(y, cb, cr)
  {
    hide ToRgb, BatchRow, BatchCb, BatchCr, Luma, Sampled;
    BatchPixel(ys, cs, w, h, r, c);
  }

  lemma PairIsInside(img: Picture, w: nat, r: nat)
    requires Paired(img, w) && r < |img|
    ensures w > 0 && |img| % 2 == 0 && r - r % 2 + 1 < |img|
    ensures |img[r]| == |img[r - r % 2]| == |img[r - r % 2 + 1]| == w
  {}

  /** The syncs were found at most half a sample off. */
  ghost predicate OnTime(starts: seq<int>, fs: real, t0: real) {
    forall n :: 0 <= n < |starts| ==> -0.5 <= starts[n] as real - TrueStart(fs, t0, n) <= 0.5
  }

  /** A sample of one row, behind the rows that are read. */
  ghost predicate Reads(rows: seq<Row>, n: nat, c: nat, v: int) {
    n < |rows| && c < |rows[n]| && rows[n][c] == v
  }

  /** The samples of one row. */
  lemma RowReads(inst: seq<real>, img: Picture, w: nat, fs: real, t0: real, starts: seq<int>, r: nat, c: nat)
    requires Paired(img, w) && |starts| == |img| && r < |img| && c < w && fs > 0.0 && OnTime(starts, fs, t0)
    requires Carries(inst, PictureTones(img, w, 0), fs, t0)
    requires Samples(C_SCAN_MS / w as real, fs) > 6.0
    ensures |img[r]| == w && Reads(ReadLuma(inst, fs, w, starts), r, c, img[r][c].y)
    ensures Reads(ReadChroma(inst, fs, w, starts), r, c,
                  Round(if r % 2 == 0 then PairCr(img, r, c) else PairCb(img, r, c)))
  {
    hide ReadScan, Samples, Carries, PictureTones, TrueStart, PairCr, PairCb;
    RowIsRead(inst, img, w, fs, t0, starts[r], r, c);
  }

  lemma ReadIsSampled(inst: seq<real>, fs: real, w: nat, starts: seq<int>)
    requires w > 0
    ensures Sampled(ReadLuma(inst, fs, w, starts), ReadChroma(inst, fs, w, starts), w, |starts|)
  {
    hide ReadScan;
  }

  /** In a complete picture of even height a pixel takes Cr from the even row of its pair
      and Cb from the odd one. */
  lemma BatchPixel(ys: seq<Row>, cs: seq<Row>, w: nat, h: nat, r: nat, c: nat)
    requires Sampled(ys, cs, w, h) && |ys| == h && h % 2 == 0 && r < h && c < w
    requires |Luma(ys, w, r)| == |BatchCb(cs, w, h, r)| == |BatchCr(cs, w, r)| == w
    ensures r - r % 2 + 1 < h && |ys[r]| == |cs[r - r % 2]| == |cs[r - r % 2 + 1]| == w
    ensures BatchRow(ys, cs, w, h, r)[c] == ToRgb(ys[r][c], cs[r - r % 2 + 1][c], cs[r - r % 2][c])
  {
    hide Fill, ToRgb;
    assert |cs[r]| == |ys[r]| == w;
    assert |cs[r - r % 2]| == |ys[r - r % 2]| == w && |cs[r - r % 2 + 1]| == |ys[r - r % 2 + 1]| == w;
  }

  lemma SamePair(img: Picture, w: nat, r: nat, c: nat)
    requires Paired(img, w) && r < |img| && c < w
    ensures var e := r - r % 2;
      PairCr(img, e, c) == PairCr(img, r, c) && PairCb(img, e + 1, c) == PairCb(img, r, c)
  {}
}
