/** Robot 36: live rows with chroma back-fill against the batch decoder
    (core/robot36_dsp.py, core/decoder.py, core/incremental_decoder.py). */
module Robot36 {
  import opened Rounding
  import opened LeastSquares
  import opened Pixels

  /** One row of one plane. */
  type Row = seq<int>

  datatype Colour = Colour(r: int, g: int, b: int)

  // ---- sampling ----

  const SAMPLE_HALF := 2

  function Sum(s: seq<real>): real {
    if s == [] then 0.0 else s[0] + Sum(s[1..])
  }

  /** `sample_pixel`: the mean of five samples around the centre, cut at the track's ends. */
  function SamplePixel(inst: seq<real>, center: real): (v: int)
    ensures 0 <= v <= 255
  {
    var c := Round(center);
    var lo := if c - SAMPLE_HALF < 0 then 0 else c - SAMPLE_HALF;
    var hi := if c + SAMPLE_HALF + 1 > |inst| then |inst| else c + SAMPLE_HALF + 1;
    if hi <= lo then 0
    else
      var freq := Sum(inst[lo..hi]) / (hi - lo) as real;
      var value := (freq - BLACK_HZ) / ((WHITE_HZ - BLACK_HZ) / 255.0);
      if value < 0.0 then 0
      else if value > 255.0 then 255
      else
        RoundMonotone(0.0, value);
        RoundMonotone(value, 255.0);
        Round(value)
  }

  /** The centre of pixel c of a scan. */
  function Center(start: real, pixelSpan: real, c: nat): real {
    start + Mul(c as real + 0.5, pixelSpan)
  }

  /** `sample_scan`. */
  method SampleScan(inst: seq<real>, start: real, span: real, width: int) returns (out: array<int>)
    ensures fresh(out) && out.Length == (if width < 0 then 0 else width)
    ensures forall c :: 0 <= c < width ==>
      out[c] == if span <= 0.0 then 0 else SamplePixel(inst, Center(start, span / width as real, c))
  {
    hide SamplePixel;
    out := new int[if width < 0 then 0 else width](_ => 0);
    if width <= 0 || span <= 0.0 {
      return;
    }
    var pixelSpan := span / width as real;
    for col := 0 to width
      invariant forall c ::
        0 <= c < width ==> out[c] == if c < col then SamplePixel(inst, Center(start, pixelSpan, c)) else 0
    {
      out[col] := SamplePixel(inst, Center(start, pixelSpan, col));
    }
  }

  lemma {:induction false} SumOfTone(s: seq<real>, f: real)
    requires forall i :: 0 <= i < |s| ==> s[i] == f
    ensures Sum(s) == Mul(|s| as real, f)
  {
    hide Mul;
    if s == [] {
      ZeroTimes(f);
    } else {
      SumOfTone(s[1..], f);
      Distribute(f, (|s| - 1) as real, 1.0);
      One(f);
    }
  }

  lemma ZeroTimes(f: real)
    ensures Mul(0.0, f) == 0.0
  {}

  /** A pixel of more than six samples carrying one value's tone is read as that value,
      rounded, its scan found at most half a sample off. */
  lemma PixelOfTone(inst: seq<real>, center: real, truth: real, pixelSpan: real, value: real)
    requires 0.0 <= value <= 255.0 && pixelSpan > 6.0 && -0.5 <= center - truth <= 0.5
    requires 0.0 <= truth - pixelSpan / 2.0 && truth + pixelSpan / 2.0 <= |inst| as real
    requires forall i ::
      0 <= i < |inst| && truth - pixelSpan / 2.0 <= i as real < truth + pixelSpan / 2.0 ==> inst[i] == ToneFreq(value)
    ensures SamplePixel(inst, center) == Round(value)
  {
    hide Sum, ToneFreq;
    var c := Round(center);
    var s := inst[c - 2..c + 3];
    SumOfTone(s, ToneFreq(value));
    MeanOfTone(5.0, ToneFreq(value));
    ValueOfTone(value);
  }

  lemma MeanOfTone(n: real, f: real)
    requires n > 0.0
    ensures Mul(n, f) / n == f
  {}

  lemma ValueOfTone(value: real)
    ensures (ToneFreq(value) - BLACK_HZ) / ((WHITE_HZ - BLACK_HZ) / 255.0) == value
  {}

  // ---- colour ----

  function Clip(v: int): (c: int)
    ensures 0 <= c <= 255
  {
    if v < 0 then 0 else if v > 255 then 255 else v
  }

  /** slowrx's integer matrix; division rounds down. */
  function ToRgb(y: int, cb: int, cr: int): Colour {
    Colour(Clip((100 * y + 140 * cr - 17850) / 100),
           Clip((100 * y - 71 * cr - 33 * cb + 13260) / 100),
           Clip((100 * y + 178 * cb - 22695) / 100))
  }

  /** Neutral chroma is not quite grey: rounding the constants down costs green one step. */
  lemma NeutralChroma(y: int)
    requires 0 <= y <= 255
    ensures ToRgb(y, 128, 128) == Colour(y, if y == 0 then 0 else y - 1, y)
  {}

  function ClipReal(v: real): real {
    if v < 0.0 then 0.0 else if v > 255.0 then 255.0 else v
  }

  /** A colour of integers within four steps below and two above a colour of reals. */
  predicate Resembles(c: Colour, r: real, g: real, b: real) {
    && -0.6 < c.r as real - ClipReal(r) < 1.0
    && -4.0 < c.g as real - ClipReal(g) < 2.0
    && -1.2 < c.b as real - ClipReal(b) < 2.0
  }

  /** The integer matrix against the conversion of Recommendation ITU-R BT.601 in full range
      (the JFIF form), to the nearest thousandth: red within one step, blue within two, green
      at most four too dark and two too bright, over all bytes. */
  lemma NearBt601(y: int, cb: int, cr: int)
    requires 0 <= y <= 255 && 0 <= cb <= 255 && 0 <= cr <= 255
    ensures var u, v := cb as real - 128.0, cr as real - 128.0;
      Resembles(ToRgb(y, cb, cr), y as real + 1.402 * v, y as real - 0.344 * u - 0.714 * v, y as real + 1.772 * u)
  {
    hide Clip, ClipReal;
    var u, v := cb as real - 128.0, cr as real - 128.0;
    ClippedFloor(100 * y + 140 * cr - 17850, y as real + 1.402 * v, 0.6, 1.0);
    ClippedFloor(100 * y - 71 * cr - 33 * cb + 13260, y as real - 0.344 * u - 0.714 * v, 4.0, 2.0);
    ClippedFloor(100 * y + 178 * cb - 22695, y as real + 1.772 * u, 1.2, 2.0);
  }

  lemma ClippedFloor(n: int, x: real, down: real, up: real)
    requires up > 0.0 && down > 0.0 && x - down + 1.0 < n as real / 100.0 + 0.01 && n as real / 100.0 < x + up
    ensures -down < Clip(n / 100) as real - ClipReal(x) < up
  {
    var k := n / 100;
    assert 100 * k <= n <= 100 * k + 99;
    assert x - down < k as real < x + up;
  }

  function RowToRgb(y: Row, cb: Row, cr: Row): (rgb: seq<Colour>)
    requires |y| == |cb| == |cr|
    ensures |rgb| == |y|
  {
    seq(|y|, i requires 0 <= i < |y| => ToRgb(y[i], cb[i], cr[i]))
  }

  // ---- what the batch decoder ends with ----

  /** The rows sampled from the track: luma and the line's own chroma, all w wide. */
  ghost predicate Sampled(ys: seq<Row>, cs: seq<Row>, w: nat, h: nat) {
    |ys| == |cs| <= h && forall i :: 0 <= i < |ys| ==> |ys[i]| == |cs[i]| == w
  }

  function Fill(v: int, w: nat): (r: Row)
    ensures |r| == w
  {
    seq(w, _ => v)
  }

  function Luma(ys: seq<Row>, w: nat, r: nat): Row {
    if r < |ys| then ys[r] else Fill(0, w)
  }

  /** The chroma sampled on line r, neutral on a line that was not received. */
  function Chroma(cs: seq<Row>, w: nat, r: int): Row {
    if 0 <= r < |cs| then cs[r] else Fill(128, w)
  }

  /** Cb of a row: its own on odd rows, else the next row's, else the previous one's. */
  function BatchCb(cs: seq<Row>, w: nat, h: nat, r: nat): Row {
    if r % 2 == 1 then Chroma(cs, w, r) else if r + 1 < h then Chroma(cs, w, r + 1) else Chroma(cs, w, r - 1)
  }

  /** Cr of a row: its own on even rows, else the previous row's. */
  function BatchCr(cs: seq<Row>, w: nat, r: nat): Row {
    if r % 2 == 0 then Chroma(cs, w, r) else Chroma(cs, w, r - 1)
  }

  lemma SampledLines(ys: seq<Row>, cs: seq<Row>, w: nat, h: nat)
    requires Sampled(ys, cs, w, h)
    ensures |ys| == |cs| <= h
    ensures forall r: nat :: Luma(ys, w, r) == if r < |ys| then ys[r] else Fill(0, w)
    ensures forall r: nat :: Chroma(cs, w, r) == if r < |cs| then cs[r] else Fill(128, w)
  {}

  /** One sampled line goes into its planes: even lines carry Cr, odd lines Cb. */
  method StoreLine(yPlane: array<Row>, cbPlane: array<Row>, crPlane: array<Row>, row: nat, y: Row, c: Row)
    requires yPlane != cbPlane && yPlane != crPlane && cbPlane != crPlane
    requires row < yPlane.Length == cbPlane.Length == crPlane.Length
    modifies yPlane, cbPlane, crPlane
    ensures yPlane[..] == old(yPlane[..])[row := y]
    ensures cbPlane[..] == if row % 2 == 1 then old(cbPlane[..])[row := c] else old(cbPlane[..])
    ensures crPlane[..] == if row % 2 == 0 then old(crPlane[..])[row := c] else old(crPlane[..])
  {
    yPlane[row] := y;
    if row % 2 == 0 {
      crPlane[row] := c;
    } else {
      cbPlane[row] := c;
    }
  }

  /** The first n lines' own chroma, on the lines of the given parity. */
  function Native(cs: seq<Row>, w: nat, h: nat, n: nat, parity: nat): (plane: seq<Row>)
    ensures |plane| == h
  {
    seq(h, r requires 0 <= r < h => if r < n && r % 2 == parity then Chroma(cs, w, r) else Fill(128, w))
  }

  lemma NativeStep(cs: seq<Row>, w: nat, h: nat, n: nat, parity: nat)
    requires n < |cs| <= h
    ensures Native(cs, w, h, n + 1, parity)
      == if n % 2 == parity then Native(cs, w, h, n, parity)[n := cs[n]] else Native(cs, w, h, n, parity)
  {
    hide Fill;
  }

  /** The planes once every sampled line is in. */
  method FillPlanes(ys: seq<Row>, cs: seq<Row>, w: nat, h: nat)
      returns (yPlane: array<Row>, cbPlane: array<Row>, crPlane: array<Row>)
    requires Sampled(ys, cs, w, h)
    ensures fresh(yPlane) && fresh(cbPlane) && fresh(crPlane) && yPlane != cbPlane && yPlane != crPlane
      && cbPlane != crPlane
    ensures yPlane.Length == cbPlane.Length == crPlane.Length == h
    ensures yPlane[..] == YPlane(ys, w, h, |ys|)
    ensures cbPlane[..] == Native(cs, w, h, |cs|, 1) && crPlane[..] == Native(cs, w, h, |cs|, 0)
  {
    hide Fill, Sampled, Chroma;
    SampledLines(ys, cs, w, h);
    yPlane := new Row[h](_ => Fill(0, w));
    cbPlane := new Row[h](_ => Fill(128, w));
    crPlane := new Row[h](_ => Fill(128, w));
    for row := 0 to |ys|
      invariant yPlane[..] == YPlane(ys, w, h, row)
      invariant cbPlane[..] == Native(cs, w, h, row, 1) && crPlane[..] == Native(cs, w, h, row, 0)
    {
      YStep(ys, w, h, row);
      NativeStep(cs, w, h, row, 0);
      NativeStep(cs, w, h, row, 1);
      StoreLine(yPlane, cbPlane, crPlane, row, ys[row], cs[row]);
    }
  }

  /** A Cb plane with the even row's missing chroma copied. */
  function FillCb(cb: seq<Row>, row: nat): (r: seq<Row>)
    requires row < |cb|
    ensures |r| == |cb|
  {
    if row % 2 == 1 then cb
    else if row + 1 < |cb| then cb[row := cb[row + 1]]
    else if row >= 1 then cb[row := cb[row - 1]]
    else cb
  }

  function FillCr(cr: seq<Row>, row: nat): (r: seq<Row>)
    requires row < |cr|
    ensures |r| == |cr|
  {
    if row % 2 == 0 then cr else cr[row := cr[row - 1]]
  }

  /** The Cb plane once the rows before n have been completed. */
  function CopiedCb(cs: seq<Row>, w: nat, h: nat, n: nat): (plane: seq<Row>)
    ensures |plane| == h
  {
    seq(h, r requires 0 <= r < h => if r % 2 == 1 || r < n then BatchCb(cs, w, h, r) else Fill(128, w))
  }

  function CopiedCr(cs: seq<Row>, w: nat, h: nat, n: nat): (plane: seq<Row>)
    ensures |plane| == h
  {
    seq(h, r requires 0 <= r < h => if r % 2 == 0 || r < n then BatchCr(cs, w, r) else Fill(128, w))
  }

  /** Completing row n is the live decoder's fill of row n. */
  lemma CopyCbStep(cs: seq<Row>, w: nat, h: nat, n: nat)
    requires n < h
    ensures FillCb(CopiedCb(cs, w, h, n), n) == CopiedCb(cs, w, h, n + 1)
  {
    hide Fill, BatchCb;
    CbNeighbour(cs, w, h, n);
  }

  lemma CbNeighbour(cs: seq<Row>, w: nat, h: nat, n: nat)
    ensures n % 2 == 0 ==>
      BatchCb(cs, w, h, n)
        == if n + 1 < h then BatchCb(cs, w, h, n + 1) else if n >= 1 then BatchCb(cs, w, h, n - 1) else Fill(128, w)
  {
    hide Fill;
  }

  lemma CopyCrStep(cs: seq<Row>, w: nat, h: nat, n: nat)
    requires n < h
    ensures FillCr(CopiedCr(cs, w, h, n), n) == CopiedCr(cs, w, h, n + 1)
  {
    hide Fill, BatchCr;
    CrNeighbour(cs, w, n);
  }

  lemma CrNeighbour(cs: seq<Row>, w: nat, n: nat)
    ensures n % 2 == 1 ==> BatchCr(cs, w, n) == BatchCr(cs, w, n - 1)
  {
    hide Fill;
  }

  lemma CopyStarts(cs: seq<Row>, w: nat, h: nat)
    requires |cs| <= h
    ensures Native(cs, w, h, |cs|, 1) == CopiedCb(cs, w, h, 0) && Native(cs, w, h, |cs|, 0) == CopiedCr(cs, w, h, 0)
  {
    hide Fill;
  }

  /** The missing chroma of every row, copied from the line next to it. */
  method CopyChroma(cbPlane: array<Row>, crPlane: array<Row>, ghost cs: seq<Row>, w: nat, h: nat)
    requires cbPlane != crPlane && cbPlane.Length == crPlane.Length == h
    requires cbPlane[..] == CopiedCb(cs, w, h, 0) && crPlane[..] == CopiedCr(cs, w, h, 0)
    modifies cbPlane, crPlane
    ensures cbPlane[..] == CopiedCb(cs, w, h, h) && crPlane[..] == CopiedCr(cs, w, h, h)
  {
    hide Fill, CopiedCb, CopiedCr;
    for row := 0 to h
      invariant cbPlane[..] == CopiedCb(cs, w, h, row)
      invariant crPlane[..] == CopiedCr(cs, w, h, row)
    {
      CopyCbStep(cs, w, h, row);
      CopyCrStep(cs, w, h, row);
      if row % 2 == 0 {
        var src := if row + 1 < h then row + 1 else row - 1;
        // A negative index counts from the end: in a picture of one row it is that row.
        cbPlane[row] := cbPlane[if src < 0 then src + h else src];
      } else {
        var src := if row - 1 >= 0 then row - 1 else row + 1;
        crPlane[row] := crPlane[src];
      }
    }
  }

  /** Row r of the batch picture. */
  function BatchRow(ys: seq<Row>, cs: seq<Row>, w: nat, h: nat, r: nat): seq<Colour>
    requires |Luma(ys, w, r)| == |BatchCb(cs, w, h, r)| == |BatchCr(cs, w, r)|
  {
    RowToRgb(Luma(ys, w, r), BatchCb(cs, w, h, r), BatchCr(cs, w, r))
  }

  lemma RowsAreWide(ys: seq<Row>, cs: seq<Row>, w: nat, h: nat)
    requires Sampled(ys, cs, w, h)
    ensures forall r: nat :: |Luma(ys, w, r)| == w && |BatchCb(cs, w, h, r)| == w && |BatchCr(cs, w, r)| == w
  {
    hide Fill;
  }

  /** `_decode_robot36` on sampled rows: fill the planes, then copy the missing chroma. */
  method DecodeBatch(ys: seq<Row>, cs: seq<Row>, w: nat, h: nat) returns (rgb: array<seq<Colour>>)
    requires Sampled(ys, cs, w, h)
    ensures fresh(rgb) && rgb.Length == h
    ensures forall r: nat :: |Luma(ys, w, r)| == |BatchCb(cs, w, h, r)| == |BatchCr(cs, w, r)| == w
    ensures forall r :: 0 <= r < h ==> rgb[r] == BatchRow(ys, cs, w, h, r)
  {
    hide RowToRgb, Fill, Luma, BatchCb, BatchCr, Sampled, Chroma, Native;
    SampledLines(ys, cs, w, h);
    CopyStarts(cs, w, h);
    var yPlane, cbPlane, crPlane := FillPlanes(ys, cs, w, h);
    CopyChroma(cbPlane, crPlane, cs, w, h);
    RowsAreWide(ys, cs, w, h);
    assert forall r ::
      0 <= r < h ==> yPlane[r] == yPlane[..][r] && cbPlane[r] == cbPlane[..][r] && crPlane[r] == crPlane[..][r];
    rgb := Convert(yPlane, cbPlane, crPlane);
  }

  /** `ycbcr_to_rgb` on whole planes. */
  method Convert(yPlane: array<Row>, cbPlane: array<Row>, crPlane: array<Row>) returns (rgb: array<seq<Colour>>)
    requires yPlane.Length == cbPlane.Length == crPlane.Length
    requires forall r :: 0 <= r < yPlane.Length ==> |yPlane[r]| == |cbPlane[r]| == |crPlane[r]|
    ensures fresh(rgb) && rgb.Length == yPlane.Length
    ensures forall r :: 0 <= r < rgb.Length ==> rgb[r] == RowToRgb(yPlane[r], cbPlane[r], crPlane[r])
  {
    hide RowToRgb;
    rgb := new seq<Colour>[yPlane.Length](_ => []);
    for row := 0 to yPlane.Length
      invariant forall r :: 0 <= r < row ==> rgb[r] == RowToRgb(yPlane[r], cbPlane[r], crPlane[r])
      modifies rgb
    {
      rgb[row] := RowToRgb(yPlane[row], cbPlane[row], crPlane[row]);
    }
  }

  // ---- the live decoder ----

  /** Cb of row r once the first n rows have come in. */
  function LiveCb(cs: seq<Row>, w: nat, h: nat, n: nat, r: nat): Row {
    if r >= n || n > |cs| then Fill(128, w)
    else if r % 2 == 1 then cs[r]
    else if r + 1 < h then (if r + 1 < n then cs[r + 1] else Fill(128, w))
    else if r >= 1 then cs[r - 1]
    else Fill(128, w)
  }

  function LiveCr(cs: seq<Row>, w: nat, n: nat, r: nat): Row {
    if r >= n || n > |cs| then Fill(128, w) else if r % 2 == 0 then cs[r] else cs[r - 1]
  }

  function CbPlane(cs: seq<Row>, w: nat, h: nat, n: nat): (plane: seq<Row>)
    ensures |plane| == h
  {
    seq(h, r requires 0 <= r < h => LiveCb(cs, w, h, n, r))
  }

  function CrPlane(cs: seq<Row>, w: nat, h: nat, n: nat): (plane: seq<Row>)
    ensures |plane| == h
  {
    seq(h, r requires 0 <= r < h => LiveCr(cs, w, n, r))
  }

  function YPlane(ys: seq<Row>, w: nat, h: nat, n: nat): (plane: seq<Row>)
    ensures |plane| == h
  {
    seq(h, r requires 0 <= r < h => if r < n && r < |ys| then ys[r] else Fill(0, w))
  }

  /** Storing row n, filling it and back-filling the row before it leads from the planes
      of n rows to those of n + 1. */
  lemma CbStep(cs: seq<Row>, w: nat, h: nat, n: nat)
    requires n < |cs| <= h
    ensures var own := if n % 2 == 1 then CbPlane(cs, w, h, n)[n := cs[n]] else CbPlane(cs, w, h, n);
      (if n == 0 then FillCb(own, n) else FillCb(FillCb(own, n), n - 1)) == CbPlane(cs, w, h, n + 1)
  {
    hide Fill;
  }

  lemma CrStep(cs: seq<Row>, w: nat, h: nat, n: nat)
    requires n < |cs| <= h
    ensures var own := if n % 2 == 0 then CrPlane(cs, w, h, n)[n := cs[n]] else CrPlane(cs, w, h, n);
      (if n == 0 then FillCr(own, n) else FillCr(FillCr(own, n), n - 1)) == CrPlane(cs, w, h, n + 1)
  {
    hide Fill, LiveCr;
    var before, after := CrPlane(cs, w, h, n), CrPlane(cs, w, h, n + 1);
    forall r | 0 <= r < h && r != n ensures before[r] == after[r] {
      CrOfOthers(cs, w, n, r);
    }
    CrOfRow(cs, w, n + 1, n);
    if n > 0 {
      CrOfRow(cs, w, n + 1, n - 1);
    }
    if n % 2 == 0 {
      assert before[n := cs[n]] == after;
      if n > 0 {
        CrOfRow(cs, w, n + 1, n - 2);
        assert after[n - 1 := after[n - 2]] == after;
      }
    } else {
      assert before[n := before[n - 1]] == after;
    }
  }

  lemma CrOfOthers(cs: seq<Row>, w: nat, n: nat, r: nat)
    requires n < |cs| && r != n
    ensures LiveCr(cs, w, n, r) == LiveCr(cs, w, n + 1, r)
  {
    hide Fill;
  }

  lemma CrOfRow(cs: seq<Row>, w: nat, n: nat, r: nat)
    requires r < n <= |cs|
    ensures LiveCr(cs, w, n, r) == cs[r - r % 2]
  {
    hide Fill;
  }

  lemma YStep(ys: seq<Row>, w: nat, h: nat, n: nat)
    requires n < |ys| <= h
    ensures YPlane(ys, w, h, n)[n := ys[n]] == YPlane(ys, w, h, n + 1)
  {
    hide Fill;
  }

  lemma PlanesAreWide(ys: seq<Row>, cs: seq<Row>, w: nat, h: nat, n: nat)
    requires Sampled(ys, cs, w, h)
    ensures Wide(YPlane(ys, w, h, n), w) && Wide(CbPlane(cs, w, h, n), w) && Wide(CrPlane(cs, w, h, n), w)
  {
    hide Fill, LiveCb, LiveCr;
    forall r | 0 <= r < h
      ensures |YPlane(ys, w, h, n)[r]| == w && |CbPlane(cs, w, h, n)[r]| == w && |CrPlane(cs, w, h, n)[r]| == w
    {
      ChromaIsWide(ys, cs, w, h, n, r);
      assert r < |ys| ==> |ys[r]| == |cs[r]| == w;
      assert CbPlane(cs, w, h, n)[r] == LiveCb(cs, w, h, n, r) && CrPlane(cs, w, h, n)[r] == LiveCr(cs, w, n, r);
      assert |Fill(0, w)| == w;
    }
  }

  lemma ChromaIsWide(ys: seq<Row>, cs: seq<Row>, w: nat, h: nat, n: nat, r: nat)
    requires Sampled(ys, cs, w, h) && r < h
    ensures |LiveCb(cs, w, h, n, r)| == w && |LiveCr(cs, w, n, r)| == w
  {
    hide Fill;
    assert r < n && 0 < r <= |cs| && n <= |cs| ==> |cs[r - 1]| == w;
    assert r < n && r + 1 < n && n <= |cs| ==> |cs[r + 1]| == w;
  }

  // ---- live against batch ----

  /** Main result. Once row n has been processed, every row above it already has the
      chroma the batch decoder ends with, for every picture height. */
  lemma FinalAbove(cs: seq<Row>, w: nat, h: nat, n: nat, r: nat)
    requires r < n < |cs| <= h
    ensures LiveCb(cs, w, h, n + 1, r) == BatchCb(cs, w, h, r) && LiveCr(cs, w, n + 1, r) == BatchCr(cs, w, r)
  {
    hide Fill;
  }

  /** Row n itself is then final too, except for the Cb of an even row that a
      neutral-free row will still follow. */
  lemma CurrentRowFinalIff(cs: seq<Row>, w: nat, h: nat, n: nat)
    requires n < |cs| <= h
    ensures LiveCr(cs, w, n + 1, n) == BatchCr(cs, w, n)
    ensures LiveCb(cs, w, h, n + 1, n) == BatchCb(cs, w, h, n) <==>
      n % 2 == 1 || n + 1 == h || Chroma(cs, w, n + 1) == Fill(128, w)
  {
    hide Fill;
  }

  /** Main result. After the last received row every received row is as in the batch picture. */
  lemma LiveEndsAsBatch(cs: seq<Row>, w: nat, h: nat, r: nat)
    requires r < |cs| <= h
    ensures LiveCb(cs, w, h, |cs|, r) == BatchCb(cs, w, h, r) && LiveCr(cs, w, |cs|, r) == BatchCr(cs, w, r)
  {
    hide Fill;
  }

  predicate Wide(plane: seq<Row>, w: nat) {
    forall r :: 0 <= r < |plane| ==> |plane[r]| == w
  }

  lemma FillKeepsWide(cb: seq<Row>, cr: seq<Row>, row: nat, w: nat)
    requires row < |cb| == |cr| && Wide(cb, w) && Wide(cr, w)
    ensures Wide(FillCb(cb, row), w) && Wide(FillCr(cr, row), w)
    ensures forall r :: 0 <= r < |cb| && r != row ==> FillCb(cb, row)[r] == cb[r] && FillCr(cr, row)[r] == cr[r]
  {}

  class Robot36IncrementalDecoder {
    const w: nat
    const h: nat
    const yPlane: array<Row>
    const cbPlane: array<Row>
    const crPlane: array<Row>
    const image: array<seq<Colour>>

    ghost predicate Valid() {
      && yPlane.Length == cbPlane.Length == crPlane.Length == image.Length == h
      && yPlane != cbPlane && yPlane != crPlane && cbPlane != crPlane
    }

    /** The planes are those of the first n rows. */
    ghost predicate Holds(ys: seq<Row>, cs: seq<Row>, n: nat)
      requires Valid()
      reads yPlane, cbPlane, crPlane
    {
      yPlane[..] == YPlane(ys, w, h, n) && cbPlane[..] == CbPlane(cs, w, h, n) && crPlane[..] == CrPlane(cs, w, h, n)
    }

    /** The picture shows row r as the planes have it. */
    ghost predicate Shows(r: nat)
      requires Valid()
      reads yPlane, cbPlane, crPlane, image
    {
      r < h && |yPlane[r]| == |cbPlane[r]| == |crPlane[r]| && image[r] == RowToRgb(yPlane[r], cbPlane[r], crPlane[r])
    }

    constructor (width: nat, height: nat)
      ensures Valid() && w == width && h == height
      ensures fresh(yPlane) && fresh(cbPlane) && fresh(crPlane) && fresh(image)
      ensures forall ys, cs :: Holds(ys, cs, 0)
    {
      w, h := width, height;
      yPlane := new Row[height](_ => Fill(0, width));
      cbPlane := new Row[height](_ => Fill(128, width));
      crPlane := new Row[height](_ => Fill(128, width));
      image := new seq<Colour>[height](_ => []);
    }

    /** `_fill_missing_chroma`. */
    method FillMissingChroma(row: nat)
      requires Valid() && row < h
      modifies cbPlane, crPlane
      ensures cbPlane[..] == FillCb(old(cbPlane[..]), row) && crPlane[..] == FillCr(old(crPlane[..]), row)
    {
      if row % 2 == 0 {
        var src: int := if row + 1 < h then row + 1 else row - 1;
        if 0 <= src < h {
          cbPlane[row] := cbPlane[src];
        }
      } else {
        var src: int := if row - 1 >= 0 then row - 1 else row + 1;
        if 0 <= src < h {
          crPlane[row] := crPlane[src];
        }
      }
    }

    /** `_emit_row`. */
    method EmitRow(row: nat) returns (rgb: seq<Colour>)
      requires Valid() && row < h && |yPlane[row]| == |cbPlane[row]| == |crPlane[row]|
      modifies image
      ensures rgb == RowToRgb(yPlane[row], cbPlane[row], crPlane[row])
      ensures image[..] == old(image[..])[row := rgb]
    {
      rgb := RowToRgb(yPlane[row], cbPlane[row], crPlane[row]);
      image[row] := rgb;
    }

    /** `_decode_window` on the sampled rows of grid position n: emit the row with the
        chroma known so far, then the row before it with the chroma of this one. */
    method DecodeWindow(yRow: Row, cRow: Row, n: nat, ghost ys: seq<Row>, ghost cs: seq<Row>)
        returns (out: seq<(nat, seq<Colour>)>)
      requires Valid() && Sampled(ys, cs, w, h) && n < |ys| && Holds(ys, cs, n) && ys[n] == yRow && cs[n] == cRow
      modifies yPlane, cbPlane, crPlane, image
      ensures Holds(ys, cs, n + 1) && Shows(n) && (n > 0 ==> Shows(n - 1))
      ensures out == [(n, image[n])] + (if n == 0 then [] else [(n - 1, image[n - 1])])
      ensures forall r :: 0 <= r < h && r != n && r != n - 1 ==> image[r] == old(image[r])
    {
      hide RowToRgb, Fill, FillCb, FillCr, YPlane, CbPlane, CrPlane;
      PlanesAreWide(ys, cs, w, h, n);
      PlanesAreWide(ys, cs, w, h, n + 1);
      YStep(ys, w, h, n);
      CbStep(cs, w, h, n);
      CrStep(cs, w, h, n);
      yPlane[n] := yRow;
      if n % 2 == 0 {
        crPlane[n] := cRow;
      } else {
        cbPlane[n] := cRow;
      }
      ghost var cb, cr := cbPlane[..], crPlane[..];
      FillMissingChroma(n);
      assert cb == if n % 2 == 1 then CbPlane(cs, w, h, n)[n := cs[n]] else CbPlane(cs, w, h, n);
      assert cr == if n % 2 == 0 then CrPlane(cs, w, h, n)[n := cs[n]] else CrPlane(cs, w, h, n);
      assert yPlane[..] == YPlane(ys, w, h, n + 1);
      FillKeepsWide(cb, cr, n, w);
      var rgb := EmitRow(n);
      out := [(n, rgb)];
      if n >= 1 {
        FillKeepsWide(cbPlane[..], crPlane[..], n - 1, w);
        FillMissingChroma(n - 1);
        var before := EmitRow(n - 1);
        out := out + [(n - 1, before)];
      }
    }

    /** All sampled rows one by one: the picture is the batch picture. */
    method DecodeRows(ys: seq<Row>, cs: seq<Row>)
      requires Valid() && Sampled(ys, cs, w, h) && Holds(ys, cs, 0)
      modifies yPlane, cbPlane, crPlane, image
      ensures forall r: nat :: |Luma(ys, w, r)| == |BatchCb(cs, w, h, r)| == |BatchCr(cs, w, r)|
      ensures forall r :: 0 <= r < |ys| ==> image[r] == BatchRow(ys, cs, w, h, r)
    {
      hide RowToRgb, Fill, YPlane, CbPlane, CrPlane, LiveCb, LiveCr, BatchCb, BatchCr, Luma;
      RowsAreWide(ys, cs, w, h);
      for n := 0 to |ys|
        invariant Holds(ys, cs, n) && forall r :: 0 <= r < n ==> Shows(r)
      {
        ghost var y, cb, cr := yPlane[..], cbPlane[..], crPlane[..];
        ghost var shown := image[..];
        assert forall r ::
          0 <= r < n ==> Shows(r) && |y[r]| == |cb[r]| == |cr[r]| && shown[r] == RowToRgb(y[r], cb[r], cr[r]);
        var out := DecodeWindow(ys[n], cs[n], n, ys, cs);
        forall r | 0 <= r < n - 1 ensures Shows(r) {
          RowStays(ys, cs, w, h, n, r);
          assert yPlane[..][r] == y[r] && cbPlane[..][r] == cb[r] && crPlane[..][r] == cr[r];
          assert image[r] == shown[r];
        }
      }
      forall r | 0 <= r < |ys| ensures image[r] == BatchRow(ys, cs, w, h, r) {
        assert Shows(r);
        PlaneRows(ys, cs, w, h, r);
        assert yPlane[r] == yPlane[..][r] && cbPlane[r] == cbPlane[..][r] && crPlane[r] == crPlane[..][r];
      }
    }
  }

  lemma RowStays(ys: seq<Row>, cs: seq<Row>, w: nat, h: nat, n: nat, r: nat)
    requires r + 1 < n < |cs| == |ys| <= h
    ensures YPlane(ys, w, h, n)[r] == YPlane(ys, w, h, n + 1)[r]
    ensures CbPlane(cs, w, h, n)[r] == CbPlane(cs, w, h, n + 1)[r]
      && CrPlane(cs, w, h, n)[r] == CrPlane(cs, w, h, n + 1)[r]
  {
    hide Fill;
  }

  lemma PlaneRows(ys: seq<Row>, cs: seq<Row>, w: nat, h: nat, r: nat)
    requires r < |ys| == |cs| <= h
    ensures YPlane(ys, w, h, |ys|)[r] == Luma(ys, w, r)
    ensures CbPlane(cs, w, h, |ys|)[r] == BatchCb(cs, w, h, r) && CrPlane(cs, w, h, |ys|)[r] == BatchCr(cs, w, r)
  {
    hide Fill;
    LiveEndsAsBatch(cs, w, h, r);
  }
}
