/** Sampling a scan of the frequency track into pixels (core/demod.py). */
module Pixels {
  import opened Prelude
  import opened Rounding
  import opened LeastSquares

  const BLACK_HZ := 1500.0
  const WHITE_HZ := 2300.0
  const SYNC_REJECT_HZ := 1400.0

  /** PySSTV's `byte_to_freq`; averaged chroma values need not be whole. */
  function ToneFreq(value: real): real {
    BLACK_HZ + (WHITE_HZ - BLACK_HZ) * value / 255.0
  }

  function ByteToFreq(b: int): real {
    ToneFreq(b as real)
  }

  /** The samples taken for column c, before the track's ends are considered: the
      middle 60 percent of the pixel, at least one sample. */
  function Window(start: real, pixelSpan: real, c: nat): (w: (int, int))
    ensures w.0 < w.1
  {
    var margin := pixelSpan * 0.2;
    var lo := Round(start + Mul(c as real, pixelSpan) + margin);
    var hi := Round(start + Mul(c as real + 1.0, pixelSpan) - margin);
    (lo, if hi > lo then hi else lo + 1)
  }

  /** Whether a window is used: inside the track, and not cut to nothing. */
  predicate Valid(w: (int, int), trackLen: int, size: nat) {
    w.0 >= 0 && w.1 <= trackLen && Min(w.1, size) > w.0
  }

  function Neutral(chroma: bool): int {
    if chroma then 128 else 0
  }

  /** The pixel value for a measured frequency. */
  function Shade(freq: real, chroma: bool): (v: int)
    ensures 0 <= v <= 255
  {
    if chroma && freq < SYNC_REJECT_HZ then 128
    else
      RoundMonotone(0.0, Clip((freq - BLACK_HZ) / (WHITE_HZ - BLACK_HZ), 0.0, 1.0) * 255.0);
      RoundMonotone(Clip((freq - BLACK_HZ) / (WHITE_HZ - BLACK_HZ), 0.0, 1.0) * 255.0, 255.0);
      Round(Clip((freq - BLACK_HZ) / (WHITE_HZ - BLACK_HZ), 0.0, 1.0) * 255.0)
  }

  /** Columns that are sampled at all: chroma leaves a guard at the right edge. */
  function MaxCol(width: int, chroma: bool): int {
    width - (if chroma then (if width / 80 > 2 then width / 80 else 2) else 0)
  }

  /** One column on its own, as the loop that the grouped version replaced had it. */
  function Column(inst: seq<real>, start: real, span: real, width: int, trackLen: int, chroma: bool, c: nat): (v: int)
    requires width > 0
    ensures 0 <= v <= 255
  {
    var w := Window(start, span / width as real, c);
    if span <= 0.0 || c >= MaxCol(width, chroma) || !Valid(w, trackLen, |inst|) then Neutral(chroma)
    else Shade(Median(inst[w.0..Min(w.1, |inst|)]), chroma)
  }

  /** `sample_pixels`: windows grouped by length, one median call for a group, with
      the result of taking every column on its own. */
  method SamplePixels(inst: seq<real>, start: real, span: real, width: int, trackLen: int, chroma: bool)
      returns (out: array<int>)
    ensures fresh(out) && out.Length == (if width < 0 then 0 else width)
    ensures forall c :: 0 <= c < width ==> out[c] == Column(inst, start, span, width, trackLen, chroma, c)
  {
    hide Window, Shade, Median;
    out := new int[if width < 0 then 0 else width](_ => Neutral(chroma));
    var maxCol := MaxCol(width, chroma);
    if width <= 0 || span <= 0.0 || maxCol <= 0 {
      return;
    }
    var pixelSpan := span / width as real;
    var windows := seq(maxCol, c requires 0 <= c < maxCol => Window(start, pixelSpan, c));
    var freq := MedianGroups(inst, windows, trackLen);
    ghost var medians := freq[..];
    for c := 0 to maxCol
      invariant freq[..] == medians
      invariant forall k :: 0 <= k < width ==>
        out[k] == if k < c then Column(inst, start, span, width, trackLen, chroma, k) else Neutral(chroma)
    {
      assert windows[c] == Window(start, pixelSpan, c) && medians[c] == freq[c];
      if Valid(windows[c], trackLen, |inst|) {
        out[c] := Shade(freq[c], chroma);
      }
    }
  }

  /** The median of every valid window, group by group. */
  method MedianGroups(inst: seq<real>, windows: seq<(int, int)>, trackLen: int) returns (freq: array<real>)
    requires forall c :: 0 <= c < |windows| ==> windows[c].0 < windows[c].1
    ensures fresh(freq) && freq.Length == |windows|
    ensures forall c :: 0 <= c < |windows| && Valid(windows[c], trackLen, |inst|) ==>
      freq[c] == Median(inst[windows[c].0..Min(windows[c].1, |inst|)])
  {
    hide Median;
    freq := new real[|windows|];
    var lengths :=
      set c | 0 <= c < |windows| && Valid(windows[c], trackLen, |inst|) :: Min(windows[c].1, |inst|) - windows[c].0;
    var left := lengths;
    while left != {}
      invariant left <= lengths
      invariant forall c :: 0 <= c < |windows| && Valid(windows[c], trackLen, |inst|) ==>
        Min(windows[c].1, |inst|) - windows[c].0 in left
        || freq[c] == Median(inst[windows[c].0..Min(windows[c].1, |inst|)])
      decreases |left|
    {
      var length :| length in left;
      for c := 0 to |windows|
        invariant forall k :: 0 <= k < |windows| && Valid(windows[k], trackLen, |inst|) ==>
          var n := Min(windows[k].1, |inst|) - windows[k].0;
          (n in left && (n != length || k >= c)) || freq[k] == Median(inst[windows[k].0..Min(windows[k].1, |inst|)])
      {
        if Valid(windows[c], trackLen, |inst|) && Min(windows[c].1, |inst|) - windows[c].0 == length {
          freq[c] := Median(inst[windows[c].0..windows[c].0 + length]);
        }
      }
      left := left - {length};
    }
  }

  // ---- exactness on an ideal track ----

  lemma ShadeOfByte(b: int)
    requires 0 <= b <= 255
    ensures Shade(ByteToFreq(b), false) == b
  {
    assert (ByteToFreq(b) - BLACK_HZ) / (WHITE_HZ - BLACK_HZ) == b as real / 255.0;
    RoundUnique(b as real, b);
  }

  /** A column whose samples all carry one byte's tone is that byte. */
  lemma ColumnOfTone(inst: seq<real>, start: real, span: real, width: int, c: nat, b: int)
    requires c < width && span > 0.0 && 0 <= b <= 255
    requires var w := Window(start, span / width as real, c);
      0 <= w.0 && w.1 <= |inst| && forall i :: w.0 <= i < w.1 ==> inst[i] == ByteToFreq(b)
    ensures Column(inst, start, span, width, |inst|, false, c) == b
  {
    hide Window, Shade, Median;
    var w := Window(start, span / width as real, c);
    assert Min(w.1, |inst|) == w.1;
    MedianBetween(inst[w.0..w.1], ByteToFreq(b), ByteToFreq(b));
    ShadeOfByte(b);
  }

  /** Chroma is read like luma, but the last columns, at least two, and what lies in the sync
      band are neutral, and so is what lies outside the track; luma is black there. */
  lemma ChromaIsLumaBut(inst: seq<real>, start: real, span: real, width: int, trackLen: int, c: nat)
    requires width > 0
    ensures var w := Window(start, span / width as real, c);
      var inside := 0 <= w.0 && w.1 <= trackLen && w.0 < |inst|;
      var luma := Column(inst, start, span, width, trackLen, false, c);
      var chroma := Column(inst, start, span, width, trackLen, true, c);
      && (span <= 0.0 || !inside || c >= width ==> luma == 0)
      && (span <= 0.0 || !inside || c + 2 >= width || 80 * (width - c) <= width ==> chroma == 128)
      && (span > 0.0 && inside && c + 2 < width && 80 * (width - c) > width ==>
            chroma == if Median(inst[w.0..Min(w.1, |inst|)]) < SYNC_REJECT_HZ then 128 else luma)
  {
    hide Window, Median, Round;
    assert 80 * (width - c) <= width <==> width - c <= width / 80;
  }

  /** The scale: black and below is 0, white and above is 255, and brighter is never darker. */
  lemma ShadeScale(f: real, g: real)
    ensures f <= BLACK_HZ ==> Shade(f, false) == 0
    ensures f >= WHITE_HZ ==> Shade(f, false) == 255
    ensures f <= g ==> Shade(f, false) <= Shade(g, false)
  {
    hide Round;
    RoundIs(0.0, 0);
    RoundIs(255.0, 255);
    if f <= g {
      ScaleMonotone(f, g);
      RoundMonotone(Clip((f - BLACK_HZ) / (WHITE_HZ - BLACK_HZ), 0.0, 1.0) * 255.0,
                    Clip((g - BLACK_HZ) / (WHITE_HZ - BLACK_HZ), 0.0, 1.0) * 255.0);
    }
  }

  lemma RoundIs(x: real, n: int)
    requires x == n as real
    ensures Round(x) == n
  {
    RoundUnique(x, n);
  }

  lemma ScaleMonotone(f: real, g: real)
    requires f <= g
    ensures Clip((f - BLACK_HZ) / (WHITE_HZ - BLACK_HZ), 0.0, 1.0) * 255.0
         <= Clip((g - BLACK_HZ) / (WHITE_HZ - BLACK_HZ), 0.0, 1.0) * 255.0
  {}

  /** With at least five samples to a pixel and a start at most half a sample off, the
      window of a column lies inside that column's own dwell. */
  lemma WindowInside(start: real, truth: real, pixelSpan: real, c: nat, at: real)
    requires pixelSpan >= 5.0 && -0.5 <= start - truth <= 0.5 && at == Mul(c as real, pixelSpan)
    ensures var w := Window(start, pixelSpan, c);
      truth + at <= w.0 as real && w.1 as real <= truth + at + pixelSpan
  {
    hide Mul;
    Distribute(pixelSpan, c as real, 1.0);
    One(pixelSpan);
  }
}
