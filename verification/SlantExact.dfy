/** A pure clock drift is corrected exactly. */
module SlantExact {
  import opened Prelude
  import opened Rounding
  import opened SyncGrid
  import opened LeastSquares
  import opened SlantFit

  /** Every candidate lies exactly on a + line * s, in line order. */
  ghost predicate Exact(cands: seq<int>, lines: seq<int>, a: real, s: real) {
    && |lines| == |cands|
    && (forall i, j :: 0 <= i < j < |lines| ==> lines[i] <= lines[j])
    && (forall j :: 0 <= j < |cands| ==> cands[j] as real == a + Mul(lines[j] as real, s))
  }

  lemma LineGap(cands: seq<int>, lines: seq<int>, a: real, s: real, i: nat, j: nat)
    requires Exact(cands, lines, a, s) && i < |cands| && j < |cands|
    ensures (cands[j] - cands[i]) as real == Mul((lines[j] - lines[i]) as real, s)
  {
    assert cands[j] as real == a + Mul(lines[j] as real, s) && cands[i] as real == a + Mul(lines[i] as real, s);
    Distribute(s, lines[j] as real, -(lines[i] as real));
  }

  /** With s within tolerance of nominal, only one-line gaps look nominal. */
  lemma OneLineGap(n: int, s: real, p: real)
    requires n >= 0 && p > 0.0 && 0.75 * p <= s <= 1.25 * p
    ensures p - Tolerance(p) <= Mul(n as real, s) <= p + Tolerance(p) <==> n == 1
    ensures n == 1 ==> Mul(n as real, s) == s
  {
    if n >= 2 {
      assert Mul(n as real, s) == 2.0 * s + Mul((n - 2) as real, s);
      assert (n - 2) as real * s >= 0.0;
    }
  }

  lemma {:induction false} NearDiffsExact(cands: seq<int>, lines: seq<int>, a: real, s: real, p: real, i: nat)
    requires Exact(cands, lines, a, s) && p > 0.0 && 0.75 * p <= s <= 1.25 * p
    ensures forall d :: d in NearDiffs(cands, i, p) ==> d == s
    ensures (exists j :: i <= j && j + 1 < |cands| && lines[j + 1] == lines[j] + 1) ==> NearDiffs(cands, i, p) != []
    decreases |cands| - i
  {
    if i + 1 < |cands| {
      NearDiffsExact(cands, lines, a, s, p, i + 1);
      LineGap(cands, lines, a, s, i, i + 1);
      OneLineGap(lines[i + 1] - lines[i], s, p);
    }
  }

  lemma PeriodExact(cands: seq<int>, lines: seq<int>, a: real, s: real, p: real, i: nat)
    requires Exact(cands, lines, a, s) && p > 0.0 && 0.75 * p <= s <= 1.25 * p
    requires exists j :: i <= j && j + 1 < |cands| && lines[j + 1] == lines[j] + 1
    ensures InferredPeriod(cands, i, p) == Some(s)
  {
    hide Exact, Median, NearDiffs;
    NearDiffsExact(cands, lines, a, s, p, i);
    var ds := NearDiffs(cands, i, p);
    assert forall j :: 0 <= j < |ds| ==> ds[j] in ds;
    MedianBetween(ds, s, s);
  }

  lemma SlotExact(cands: seq<int>, lines: seq<int>, a: real, s: real, i: nat, j: nat)
    requires Exact(cands, lines, a, s) && s > 0.0 && i < |cands| && j < |cands| && lines[i] >= 0
    ensures SlotAt(cands[j], cands[i], s, lines[i]) == lines[j]
  {
    LineGap(cands, lines, a, s, i, j);
    RoundQuotient((cands[j] - cands[i]) as real, s, lines[j] - lines[i], (cands[j] - cands[i]) as real);
  }

  /** One of the points belongs to the line. */
  ghost predicate Hit(ps: seq<Point>, line: int) {
    exists t :: 0 <= t < |ps| && ps[t].x == line as real
  }

  /** Every line of the image received from candidate j on, and not seen before, has a point. */
  ghost predicate Covers(ps: seq<Point>, lines: seq<int>, j: nat, maxLines: int, seen: set<int>) {
    forall k :: j <= k < |lines| && lines[k] < maxLines && lines[k] !in seen ==> Hit(ps, lines[k])
  }

  /** The fitted points lie on the line, and cover every received line of the image. */
  lemma {:induction false} PointsExact(cands: seq<int>, lines: seq<int>, a: real, s: real, i: nat, j: nat,
      maxLines: int, seen: set<int>)
    requires Exact(cands, lines, a, s) && s > 0.0 && i < |cands| && lines[i] >= 0 && i <= j <= |cands|
    ensures var ps := Points(cands, j, cands[i], s, lines[i], Some(maxLines), seen);
      (forall q :: q in ps ==> Residual(q, Fit(a, s)) == 0.0) && Covers(ps, lines, j, maxLines, seen)
    decreases |cands| - j
  {
    hide SlotAt, Distinct, Fresh, Exact, Residual, Hit;
    Lengths(cands, lines, a, s);
    if j < |cands| {
      LineOf(cands, lines, a, s, i, j);
      SlotExact(cands, lines, a, s, i, j);
      var idx := lines[j];
      if idx in seen {
        PointsExact(cands, lines, a, s, i, j + 1, maxLines, seen);
      } else if idx < maxLines {
        PointsExact(cands, lines, a, s, i, j + 1, maxLines, seen + {idx});
        Covered(Points(cands, j + 1, cands[i], s, lines[i], Some(maxLines), seen + {idx}),
                Point(idx as real, cands[j] as real), lines, j, maxLines, seen);
      }
    }
  }

  lemma Lengths(cands: seq<int>, lines: seq<int>, a: real, s: real)
    requires Exact(cands, lines, a, s)
    ensures |lines| == |cands|
  {}

  lemma LineOf(cands: seq<int>, lines: seq<int>, a: real, s: real, i: nat, j: nat)
    requires Exact(cands, lines, a, s) && i <= j < |cands|
    ensures |lines| == |cands| && lines[i] <= lines[j] && forall k :: j <= k < |lines| ==> lines[j] <= lines[k]
    ensures Residual(Point(lines[j] as real, cands[j] as real), Fit(a, s)) == 0.0
  {
    Associate(s, lines[j] as real, 0.0);
  }

  lemma Covered(rest: seq<Point>, q: Point, lines: seq<int>, j: nat, maxLines: int, seen: set<int>)
    requires j < |lines| && q.x == lines[j] as real && Covers(rest, lines, j + 1, maxLines, seen + {lines[j]})
    ensures Covers([q] + rest, lines, j, maxLines, seen)
  {
    hide Hit;
    forall k | j <= k < |lines| && lines[k] < maxLines && lines[k] !in seen ensures Hit([q] + rest, lines[k]) {
      HitOneMore(rest, q, lines[k]);
    }
  }

  lemma HitOneMore(rest: seq<Point>, q: Point, line: int)
    ensures q.x == line as real || Hit(rest, line) ==> Hit([q] + rest, line)
  {
    var ps := [q] + rest;
    assert ps[0] == q;
    assert forall t :: 0 <= t < |rest| ==> ps[t + 1] == rest[t];
  }

  lemma {:induction false} KeepAll(ps: seq<Point>, f: Fit, limit: real)
    requires limit >= 0.0 && forall q :: q in ps ==> Residual(q, f) == 0.0
    ensures Keep(ps, f, limit) == ps
  {
    if ps != [] {
      KeepAll(ps[1..], f, limit);
    }
  }

  lemma RefitOfLine(ps: seq<Point>, f: Fit, p: real)
    requires p > 0.0 && ps != [] && Spread(ps) != 0.0 && forall q :: q in ps ==> Residual(q, f) == 0.0
    ensures Refit(ps, p) == ps && PolyFit(ps) == f
  {
    hide Residual, PolyFit, Spread, Keep;
    assert OnLine(ps, f);
    FitOfLine(ps, f);
    KeepAll(ps, f, Limit(ps, f, p));
  }

  /** Three different lines of the image were received, from the anchor on. */
  ghost predicate ThreeLines(lines: seq<int>, i: nat, maxLines: int) {
    exists j, k, l :: i <= j < k < l < |lines| && lines[j] < lines[k] < lines[l] < maxLines
  }

  lemma ThreePoints(ps: seq<Point>, lines: seq<int>, i: nat, maxLines: int)
    requires ThreeLines(lines, i, maxLines) && Covers(ps, lines, i, maxLines, {})
    ensures |ps| >= 3
  {
    hide Hit;
    var j, k, l :| i <= j < k < l < |lines| && lines[j] < lines[k] < lines[l] < maxLines;
    ThreeHits(ps, lines[j], lines[k], lines[l]);
  }

  lemma ThreeHits(ps: seq<Point>, a: int, b: int, c: int)
    requires a < b < c && Hit(ps, a) && Hit(ps, b) && Hit(ps, c)
    ensures |ps| >= 3
  {}

  /** Main result: candidates on a straight line a + i * s, s within 25 % of nominal,
      with an adjacent pair and a correctly numbered anchor, give exactly
      round(a + i * s) for every line of the image. */
  lemma DriftRemoved(cands: seq<int>, lines: seq<int>, a: real, s: real, p: real, maxLines: nat, hint: Option<real>,
      k: nat)
    requires Exact(cands, lines, a, s) && p > 0.0 && 0.75 * p <= s <= 1.25 * p && k < maxLines
    requires var (i, slot) := Anchor(cands, p, Tolerance(p), hint);
      && i < |cands| && lines[i] == slot
      && (exists j :: i <= j && j + 1 < |cands| && lines[j + 1] == lines[j] + 1)
      && ThreeLines(lines, i, maxLines)
    ensures var starts := SlantStarts(cands, p, maxLines, hint);
      |starts| == maxLines && starts[k] == Round(a + Mul(k as real, s))
  {
    hide Exact, Anchor, PolyFit, Residual, ThreeLines, Points, InferredPeriod, Mul, Distinct, Spread, Refit;
    var (i, slot) := Anchor(cands, p, Tolerance(p), hint);
    PeriodExact(cands, lines, a, s, p, i);
    PointsExact(cands, lines, a, s, i, i, maxLines, {});
    var ps := Points(cands, i, cands[i], s, slot, Some(maxLines), {});
    Enough(cands, lines, a, s, i, maxLines);
    ThreePoints(ps, lines, i, maxLines);
    assert RawPoints(cands, p, Some(maxLines), hint) == Some(ps);
    RefitOfLine(ps, Fit(a, s), p);
  }

  lemma Enough(cands: seq<int>, lines: seq<int>, a: real, s: real, i: nat, maxLines: int)
    requires Exact(cands, lines, a, s) && ThreeLines(lines, i, maxLines)
    ensures |cands| >= 3 && |lines| == |cands|
  {}
}
