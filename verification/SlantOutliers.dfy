/** Which sync candidates the slant fit throws away, and that strays do not move a line
    (core/slant.py). */
module SlantOutliers {
  import opened Prelude
  import opened Rounding
  import opened SyncGrid
  import opened LeastSquares
  import opened Majority
  import opened SlantFit
  import opened SlantExact

  // ---- exactly the near points stay ----

  predicate Near(q: Point, f: Fit, limit: real) {
    Abs(Residual(q, f)) <= limit
  }

  /** At least three of the points are near the line. */
  ghost predicate ThreeNear(ps: seq<Point>, f: Fit, limit: real) {
    exists i, j, k :: 0 <= i < |ps| && 0 <= j < |ps| && 0 <= k < |ps| && i != j && j != k && k != i
                      && Near(ps[i], f, limit) && Near(ps[j], f, limit) && Near(ps[k], f, limit)
  }

  lemma ThreeMembers(s: seq<Point>, a: Point, b: Point, c: Point)
    requires a in s && b in s && c in s && a != b && b != c && c != a
    ensures |s| >= 3
  {
    var i :| 0 <= i < |s| && s[i] == a;
    var j :| 0 <= j < |s| && s[j] == b;
    var k :| 0 <= k < |s| && s[k] == c;
    assert i != j && j != k && k != i;
  }

  /** Three near points are three points kept, and the other way round. */
  lemma KeptAreNear(ps: seq<Point>, f: Fit, limit: real)
    requires Distinct(ps)
    ensures |Keep(ps, f, limit)| >= MIN_FIT_POINTS <==> ThreeNear(ps, f, limit)
  {
    hide Keep, Residual, Abs, Near, ThreeNear, Distinct;
    var kept := Keep(ps, f, limit);
    KeepSelects(ps, f, limit);
    KeepOrder(ps, f, limit);
    NearIs(ps, f, limit);
    if ThreeNear(ps, f, limit) {
      NearAreKept(ps, kept, f, limit);
    }
    if |kept| >= MIN_FIT_POINTS {
      KeptIsThree(ps, kept, f, limit);
    }
  }

  lemma NearIs(ps: seq<Point>, f: Fit, limit: real)
    ensures forall q :: Near(q, f, limit) <==> Abs(Residual(q, f)) <= limit
  {}

  lemma NearAreKept(ps: seq<Point>, kept: seq<Point>, f: Fit, limit: real)
    requires ThreeNear(ps, f, limit) && Distinct(ps) && forall q :: q in ps && Near(q, f, limit) ==> q in kept
    ensures |kept| >= 3
  {
    hide Near, Distinct;
    var i, j, k :| 0 <= i < |ps| && 0 <= j < |ps| && 0 <= k < |ps| && i != j && j != k && k != i
                   && Near(ps[i], f, limit) && Near(ps[j], f, limit) && Near(ps[k], f, limit);
    Apart(ps, i, j);
    Apart(ps, j, k);
    Apart(ps, k, i);
    ThreeMembers(kept, ps[i], ps[j], ps[k]);
  }

  lemma KeptIsThree(ps: seq<Point>, kept: seq<Point>, f: Fit, limit: real)
    requires |kept| >= 3 && Distinct(kept) && forall q :: q in kept ==> q in ps && Near(q, f, limit)
    ensures ThreeNear(ps, f, limit)
  {
    hide Near, Distinct;
    Apart(kept, 0, 1);
    Apart(kept, 1, 2);
    Apart(kept, 2, 0);
    var i := Place(ps, kept[0]);
    var j := Place(ps, kept[1]);
    var k := Place(ps, kept[2]);
  }

  lemma Place(ps: seq<Point>, q: Point) returns (i: nat)
    requires q in ps
    ensures i < |ps| && ps[i] == q
  {
    i :| 0 <= i < |ps| && ps[i] == q;
  }

  lemma Apart(ps: seq<Point>, i: nat, j: nat)
    requires Distinct(ps) && i < |ps| && j < |ps| && i != j
    ensures ps[i] != ps[j]
  {
    if i < j {
      assert ps[i].x != ps[j].x;
    } else {
      assert ps[j].x != ps[i].x;
    }
  }

  lemma {:induction false} NoneDropped(ps: seq<Point>, f: Fit, limit: real)
    requires |Keep(ps, f, limit)| >= |ps|
    ensures Keep(ps, f, limit) == ps && forall q :: q in ps ==> Near(q, f, limit)
  {
    hide Residual, Abs;
    if ps != [] {
      KeepSelects(ps[1..], f, limit);
      NoneDropped(ps[1..], f, limit);
    }
  }

  /** Main result. Around the least-squares line of all slot points, exactly the points within
      three robust sigmas or half a percent of a period stay, if they are at least three, and
      all points otherwise; the returned line is the least-squares line of those. */
  lemma OutliersDropped(cands: seq<int>, p: real, maxLines: Option<int>, hint: Option<real>)
      returns (all: seq<Point>, first: Fit, deviations: seq<real>, limit: real)
    requires FitPoints(cands, p, maxLines, hint).Some?
    ensures RawPoints(cands, p, maxLines, hint) == Some(all) && forall other :: Sse(all, first) <= Sse(all, other)
    ensures |deviations| == |all| && deviations != []
    ensures var rs := Residuals(all, first);
      forall i :: 0 <= i < |all| ==> deviations[i] == Abs(rs[i] - Median(rs))
    ensures limit >= 3.0 * 1.4826 * Median(deviations) && limit >= 0.005 * p
    ensures limit == 3.0 * 1.4826 * Median(deviations) || limit == 0.005 * p
    ensures var kept := FitPoints(cands, p, maxLines, hint).value;
      && (ThreeNear(all, first, limit) ==> forall q :: q in kept <==> q in all && Near(q, first, limit))
      && (!ThreeNear(all, first, limit) ==> kept == all)
      && Distinct(kept) && forall other :: Sse(kept, PolyFit(kept)) <= Sse(kept, other)
  {
    hide RawPoints, PolyFit, Sse, Spread, Residual, Keep, Median, Distinct, ThreeNear, Residuals;
    all := RawPoints(cands, p, maxLines, hint).value;
    first := PolyFit(all);
    var rs := Residuals(all, first);
    deviations := seq(|rs|, i requires 0 <= i < |rs| => Abs(rs[i] - Median(rs)));
    limit := Limit(all, first, p);
    var kept := FitPoints(cands, p, maxLines, hint).value;
    forall other ensures Sse(all, first) <= Sse(all, other) {
      FitMinimises(all, other);
    }
    forall other ensures Sse(kept, PolyFit(kept)) <= Sse(kept, other) {
      FitMinimises(kept, other);
    }
    KeptAreNear(all, first, limit);
    KeepSelects(all, first, limit);
    if |Keep(all, first, limit)| >= |all| {
      NoneDropped(all, first, limit);
    }
  }

  // ---- strays do not move the line ----

  function Within(lo: real, hi: real): real -> bool {
    y => lo <= y <= hi
  }

  lemma {:induction false} CountWeaker(s: seq<real>, t: seq<real>, test: real -> bool, weaker: real -> bool)
    requires |s| == |t| && forall i :: 0 <= i < |s| && test(s[i]) ==> weaker(t[i])
    ensures Count(s, test) <= Count(t, weaker)
  {
    if s != [] {
      assert forall i :: 0 <= i < |s| - 1 ==> s[1..][i] == s[i + 1] && t[1..][i] == t[i + 1];
      CountWeaker(s[1..], t[1..], test, weaker);
    }
  }

  /** Where most of the values are, the median is. */
  lemma MostBetween(s: seq<real>, lo: real, hi: real)
    requires 2 * Count(s, Within(lo, hi)) > |s|
    ensures s != [] && lo <= Median(s) <= hi
  {
    hide Sort, Count;
    var r := Sort(s);
    SortSorts(s);
    CountWeaker(s, s, Within(lo, hi), AtMost(hi));
    CountWeaker(s, s, Within(lo, hi), AtLeast(lo));
    CountSort(s, AtMost(hi));
    CountSort(s, AtLeast(lo));
    SmallInFront(r, hi, Count(r, AtMost(hi)));
    LargeAtEnd(r, lo, Count(r, AtLeast(lo)));
  }

  /** The robust deviation is no larger than the range of most of the values. */
  lemma MadOfMost(rs: seq<real>, lo: real, hi: real)
    requires 2 * Count(rs, Within(lo, hi)) > |rs|
    ensures rs != [] && Mad(rs) <= hi - lo
  {
    hide Median, Count;
    MostBetween(rs, lo, hi);
    var c := Median(rs);
    var ds := seq(|rs|, i requires 0 <= i < |rs| => Abs(rs[i] - c));
    CountWeaker(rs, ds, Within(lo, hi), Within(0.0, hi - lo));
    MostBetween(ds, 0.0, hi - lo);
  }

  /** At least three points on the line g are near the line f. */
  ghost predicate ThreeOn(ps: seq<Point>, g: Fit, f: Fit, limit: real) {
    exists i, j, k :: 0 <= i < |ps| && 0 <= j < |ps| && 0 <= k < |ps| && i != j && j != k && k != i
                      && On(ps[i], g, f, limit) && On(ps[j], g, f, limit) && On(ps[k], g, f, limit)
  }

  predicate On(q: Point, g: Fit, f: Fit, limit: real) {
    Residual(q, g) == 0.0 && Near(q, f, limit)
  }

  /** A point on g has a residual to f between lo and hi, and any other is too far from f to be kept. */
  predicate OnOrFar(q: Point, g: Fit, f: Fit, lo: real, hi: real, p: real) {
    if Residual(q, g) == 0.0 then lo <= Residual(q, f) <= hi
    else Abs(Residual(q, f)) > 0.005 * p && Abs(Residual(q, f)) > 3.0 * 1.4826 * (hi - lo)
  }

  lemma LimitOfMost(ps: seq<Point>, g: Fit, f: Fit, lo: real, hi: real, p: real)
    requires 2 * Count(Residuals(ps, g), Within(0.0, 0.0)) > |ps|
    requires forall q :: q in ps ==> OnOrFar(q, g, f, lo, hi, p)
    ensures ps != [] && 0.005 * p <= Limit(ps, f, p)
    ensures forall q :: q in ps && Near(q, f, Limit(ps, f, p)) ==> Residual(q, g) == 0.0
  {
    hide Residual, Mad, Count;
    var rs, gs := Residuals(ps, f), Residuals(ps, g);
    forall i | 0 <= i < |ps| && Within(0.0, 0.0)(gs[i]) ensures Within(lo, hi)(rs[i]) {
      assert OnOrFar(ps[i], g, f, lo, hi, p);
    }
    CountWeaker(gs, rs, Within(0.0, 0.0), Within(lo, hi));
    MadOfMost(rs, lo, hi);
  }

  /** Main result, on the points: the refit finds the line most of the points are on, if the
      others are too far from the first line. */
  lemma StraysDropped(ps: seq<Point>, p: real, g: Fit, lo: real, hi: real)
    requires |ps| >= MIN_FIT_POINTS && Distinct(ps) && Spread(ps) != 0.0
    requires 2 * Count(Residuals(ps, g), Within(0.0, 0.0)) > |ps| && ThreeOn(ps, g, PolyFit(ps), 0.005 * p)
    requires forall q :: q in ps ==> OnOrFar(q, g, PolyFit(ps), lo, hi, p)
    ensures Spread(Refit(ps, p)) != 0.0 && Refit(ps, p) != [] && PolyFit(Refit(ps, p)) == g
  {
    hide PolyFit, Spread, Residual, Distinct, ThreeNear, ThreeOn, Count, Keep, Limit, Near, Residuals, Abs, OnOrFar;
    var f := PolyFit(ps);
    var limit := Limit(ps, f, p);
    NearIs(ps, f, limit);
    LimitOfMost(ps, g, f, lo, hi, p);
    OnAreNear(ps, g, f, 0.005 * p, limit);
    KeptAreNear(ps, f, limit);
    KeepSelects(ps, f, limit);
    RefitSound(ps, p);
    var kept := Keep(ps, f, limit);
    if |kept| >= |ps| {
      NoneDropped(ps, f, limit);
    }
    assert Refit(ps, p) == kept;
    AllOn(kept, g);
    FitOfLine(kept, g);
  }

  lemma AllOn(kept: seq<Point>, g: Fit)
    requires forall q :: q in kept ==> Residual(q, g) == 0.0
    ensures OnLine(kept, g)
  {}

  lemma OnAreNear(ps: seq<Point>, g: Fit, f: Fit, limit: real, wider: real)
    requires ThreeOn(ps, g, f, limit) && limit <= wider
    ensures ThreeNear(ps, f, wider)
  {
    hide Residual;
    var i, j, k :| 0 <= i < |ps| && 0 <= j < |ps| && 0 <= k < |ps| && i != j && j != k && k != i
                   && On(ps[i], g, f, limit) && On(ps[j], g, f, limit) && On(ps[k], g, f, limit);
    assert Near(ps[i], f, wider) && Near(ps[j], f, wider) && Near(ps[k], f, wider);
  }

  // ---- how far strays pull the first line ----

  /** Sum of the distances from the line. */
  ghost function SumAbs(ps: seq<Point>, g: Fit): (r: real)
    ensures r >= 0.0
  {
    if ps == [] then 0.0 else Abs(Residual(ps[0], g)) + SumAbs(ps[1..], g)
  }

  lemma {:induction false} SumBelowAbs(ps: seq<Point>, g: Fit)
    ensures Abs(SumR(ps, g)) <= SumAbs(ps, g)
  {
    if ps != [] {
      hide Residual;
      SumBelowAbs(ps[1..], g);
    }
  }

  /** The residuals weighted by n * x - c. */
  lemma {:induction false} LeaningBelowAbs(ps: seq<Point>, g: Fit, n: real, c: real, m: real)
    requires forall q :: q in ps ==> Abs(Mul(n, q.x) - c) <= m
    ensures Abs(Mul(n, SumXR(ps, g)) - Mul(c, SumR(ps, g))) <= Mul(m, SumAbs(ps, g))
  {
    if ps == [] {
      assert Mul(n, 0.0) == 0.0 && Mul(c, 0.0) == 0.0 && Mul(m, 0.0) == 0.0;
    } else {
      var q, t := ps[0], ps[1..];
      LeaningBelowAbs(t, g, n, c, m);
      LeaningOne(n, q.x, c, Residual(q, g), m);
      Distribute(n, Mul(q.x, Residual(q, g)), SumXR(t, g));
      Distribute(c, Residual(q, g), SumR(t, g));
      Distribute(m, Abs(Residual(q, g)), SumAbs(t, g));
      hide Mul, Residual;
    }
  }

  lemma LeaningOne(n: real, x: real, c: real, r: real, m: real)
    requires Abs(Mul(n, x) - c) <= m
    ensures Abs(Mul(n, Mul(x, r)) - Mul(c, r)) <= Mul(m, Abs(r))
  {
    hide Mul;
    Associate(n, x, r);
    MinusTimes(Mul(n, x), c, r);
    MulBound(Mul(n, x) - c, r, m, Abs(r));
  }

  lemma MinusTimes(a: real, c: real, r: real)
    ensures Mul(a - c, r) == Mul(a, r) - Mul(c, r)
  {}

  lemma ProductBound(a: real, b: real, a': real, b': real)
    requires Abs(a) <= a' && Abs(b) <= b'
    ensures Abs(a * b) <= a' * b'
  {
    assert Abs(a * b) == Abs(a) * Abs(b);
    assert Abs(a) * Abs(b) <= a' * Abs(b);
    assert a' * Abs(b) <= a' * b';
  }

  lemma MulBound(a: real, b: real, a': real, b': real)
    requires Abs(a) <= a' && Abs(b) <= b'
    ensures Abs(Mul(a, b)) <= Mul(a', b')
  {
    ProductBound(a, b, a', b');
  }

  /** The difference between the fitted line and any other line g, from the residuals to g. */
  lemma PullIs(ps: seq<Point>, g: Fit, q: Point)
    requires ps != [] && Spread(ps) != 0.0
    ensures var n, sx := |ps| as real, SumX(ps);
      Mul(Mul(n, Spread(ps)), Residual(q, g) - Residual(q, PolyFit(ps)))
      == Mul(SumR(ps, g), Spread(ps)) + Mul(Mul(n, SumXR(ps, g)) - Mul(sx, SumR(ps, g)), Mul(n, q.x) - sx)
  {
    hide PolyFit, SumX, SumXX, SumY, SumXY, SumR, SumXR;
    var f := PolyFit(ps);
    ZeroResidualSums(ps);
    ResidualSums(ps, f);
    ResidualSums(ps, g);
    PullAlgebra(|ps| as real, SumX(ps), SumXX(ps), SumY(ps), SumXY(ps), f, g, SumR(ps, g), SumXR(ps, g), Spread(ps), q);
  }

  lemma PullAlgebra(n: real, sx: real, sxx: real, sy: real, sxy: real, f: Fit, g: Fit, r0: real, r1: real, d: real,
      q: Point)
    requires sy - Mul(n, f.intercept) - Mul(f.slope, sx) == 0.0
    requires sxy - Mul(f.intercept, sx) - Mul(f.slope, sxx) == 0.0
    requires r0 == sy - Mul(n, g.intercept) - Mul(g.slope, sx)
    requires r1 == sxy - Mul(g.intercept, sx) - Mul(g.slope, sxx)
    requires d == Mul(n, sxx) - Mul(sx, sx)
    ensures Mul(Mul(n, d), Residual(q, g) - Residual(q, f))
         == Mul(r0, d) + Mul(Mul(n, r1) - Mul(sx, r0), Mul(n, q.x) - sx)
  {
    var u, v := f.intercept - g.intercept, f.slope - g.slope;
    MovedSums(n, sx, sxx, u, v, r0, r1, d);
    MovedLine(n, sx, u, v, r0, d, q.x);
    assert Residual(q, g) - Residual(q, f) == u + v * q.x;
  }

  lemma MovedSums(n: real, sx: real, sxx: real, u: real, v: real, r0: real, r1: real, d: real)
    requires r0 == n * u + v * sx && r1 == u * sx + v * sxx && d == Mul(n, sxx) - Mul(sx, sx)
    ensures Mul(n, r1) - Mul(sx, r0) == v * d
  {}

  lemma MovedLine(n: real, sx: real, u: real, v: real, r0: real, d: real, x: real)
    requires r0 == n * u + v * sx
    ensures Mul(Mul(n, d), u + v * x) == Mul(r0, d) + Mul(v * d, Mul(n, x) - sx)
  {}

  /** Strays can pull the first line away from g only so far. */
  lemma PullBound(ps: seq<Point>, g: Fit, m: real, u: real, q: Point)
    requires ps != [] && Spread(ps) > 0.0 && q in ps && u >= 0.0
    requires forall r :: r in ps ==> Abs(Mul(|ps| as real, r.x) - SumX(ps)) <= m
    requires Mul(SumAbs(ps, g), Spread(ps) + Mul(m, m)) <= Mul(Mul(|ps| as real, Spread(ps)), u)
    ensures Abs(Residual(q, g) - Residual(q, PolyFit(ps))) <= u
  {
    hide PolyFit, Spread, SumX, SumR, SumXR, SumAbs, Residual, Mul;
    var n, sx, spread, k := |ps| as real, SumX(ps), Spread(ps), SumAbs(ps, g);
    var r0, lean := SumR(ps, g), Mul(n, SumXR(ps, g)) - Mul(sx, SumR(ps, g));
    SumBelowAbs(ps, g);
    LeaningBelowAbs(ps, g, n, sx, m);
    PullIs(ps, g, q);
    var pull := Residual(q, g) - Residual(q, PolyFit(ps));
    TwoBounds(r0, spread, lean, Mul(n, q.x) - sx, k, m);
    ProductPositive(n, spread);
    Shrink(Mul(n, spread), pull, u);
  }

  lemma TwoBounds(r0: real, spread: real, lean: real, d: real, k: real, m: real)
    requires Abs(r0) <= k && spread >= 0.0 && Abs(lean) <= Mul(m, k) && Abs(d) <= m
    ensures Abs(Mul(r0, spread) + Mul(lean, d)) <= Mul(k, spread + Mul(m, m))
  {
    hide Mul;
    MulBound(r0, spread, k, spread);
    MulBound(lean, d, Mul(m, k), m);
    Distribute(k, spread, Mul(m, m));
    Associate(m, k, m);
    Associate(k, m, m);
  }

  lemma Shrink(w: real, a: real, u: real)
    requires w > 0.0 && u >= 0.0 && Abs(Mul(w, a)) <= Mul(w, u)
    ensures Abs(a) <= u
  {
    if a > u {
      assert w * (a - u) > 0.0;
    } else if a < -u {
      assert w * (-a - u) > 0.0;
    }
  }

  // ---- candidates on lines, and strays between them ----

  /** Every candidate that is no stray lies exactly on a + line * s. */
  ghost predicate OnLines(cands: seq<int>, lines: seq<int>, stray: seq<bool>, a: real, s: real) {
    && |lines| == |cands| == |stray|
    && forall j :: 0 <= j < |cands| && !stray[j] ==> cands[j] as real == a + Mul(lines[j] as real, s)
  }

  predicate OffLine(c: int, a: real, s: real, gap: real, line: int) {
    Abs(c as real - (a + Mul(line as real, s))) > gap
  }

  /** The candidate is farther than the gap from every line. */
  ghost predicate OffAllLines(c: int, a: real, s: real, gap: real) {
    forall line: int :: OffLine(c, a, s, gap, line)
  }

  ghost predicate StraysAreOff(cands: seq<int>, stray: seq<bool>, a: real, s: real, gap: real) {
    forall j :: 0 <= j < |cands| && j < |stray| && stray[j] ==> OffAllLines(cands[j], a, s, gap)
  }

  function StraysFrom(stray: seq<bool>, j: nat): nat
    decreases |stray| - j
  {
    if j >= |stray| then 0 else (if stray[j] then 1 else 0) + StraysFrom(stray, j + 1)
  }

  lemma SlotOnLine(cands: seq<int>, lines: seq<int>, stray: seq<bool>, a: real, s: real, i: nat, j: nat)
    requires OnLines(cands, lines, stray, a, s) && s > 0.0 && i < |cands| && j < |cands|
    requires !stray[i] && !stray[j] && lines[i] >= 0
    ensures SlotAt(cands[j], cands[i], s, lines[i]) == lines[j]
    ensures Residual(Point(lines[j] as real, cands[j] as real), Fit(a, s)) == 0.0
  {
    assert cands[j] as real == a + Mul(lines[j] as real, s) && cands[i] as real == a + Mul(lines[i] as real, s);
    Distribute(s, lines[j] as real, -(lines[i] as real));
    Associate(s, lines[j] as real, 0.0);
    RoundQuotient((cands[j] - cands[i]) as real, s, lines[j] - lines[i], (cands[j] - cands[i]) as real);
  }

  lemma OffTheLine(c: int, a: real, s: real, gap: real, line: int)
    requires OffAllLines(c, a, s, gap)
    ensures Abs(Residual(Point(line as real, c as real), Fit(a, s))) > gap
  {
    Associate(s, line as real, 0.0);
    assert OffLine(c, a, s, gap, line);
  }

  ghost predicate OnOrOff(q: Point, g: Fit, gap: real) {
    Residual(q, g) == 0.0 || Abs(Residual(q, g)) > gap
  }

  ghost predicate AllOnOrOff(ps: seq<Point>, g: Fit, gap: real) {
    forall q :: q in ps ==> OnOrOff(q, g, gap)
  }

  lemma OneMorePoint(q: Point, rest: seq<Point>, g: Fit, gap: real)
    requires AllOnOrOff(rest, g, gap) && OnOrOff(q, g, gap)
    ensures AllOnOrOff([q] + rest, g, gap)
    ensures Count(Residuals([q] + rest, g), Within(0.0, 0.0))
         == Count(Residuals(rest, g), Within(0.0, 0.0)) + if Residual(q, g) == 0.0 then 1 else 0
  {
    hide Residual, OnOrOff;
    assert Residuals([q] + rest, g) == [Residual(q, g)] + Residuals(rest, g);
  }

  /** The points are on the line, but for at most one for every stray. */
  lemma {:induction false} PointsOfMost(cands: seq<int>, lines: seq<int>, stray: seq<bool>, a: real, s: real, gap: real,
      i: nat, j: nat, maxLines: int, seen: set<int>)
    requires OnLines(cands, lines, stray, a, s) && StraysAreOff(cands, stray, a, s, gap)
    requires s > 0.0 && i < |cands| && !stray[i] && lines[i] >= 0
    ensures var ps := Points(cands, j, cands[i], s, lines[i], Some(maxLines), seen);
      && AllOnOrOff(ps, Fit(a, s), gap)
      && |ps| <= Count(Residuals(ps, Fit(a, s)), Within(0.0, 0.0)) + StraysFrom(stray, j)
    decreases |cands| - j
  {
    hide SlotAt, Distinct, Fresh, OnLines, Residual, StraysAreOff, OnOrOff, AllOnOrOff, Residuals, Count;
    SameLengths(cands, lines, stray, a, s);
    if j >= |cands| {
      NoPoints(Fit(a, s), gap);
    } else {
      var idx := SlotAt(cands[j], cands[i], s, lines[i]);
      var q := Point(idx as real, cands[j] as real);
      PointOnOrOff(cands, lines, stray, a, s, gap, i, j);
      PointsOfMost(cands, lines, stray, a, s, gap, i, j + 1, maxLines, seen);
      PointsOfMost(cands, lines, stray, a, s, gap, i, j + 1, maxLines, seen + {idx});
      NoPoints(Fit(a, s), gap);
      OneMorePoint(q, Points(cands, j + 1, cands[i], s, lines[i], Some(maxLines), seen + {idx}), Fit(a, s), gap);
    }
  }

  lemma NoPoints(g: Fit, gap: real)
    ensures AllOnOrOff([], g, gap)
  {}

  lemma SameLengths(cands: seq<int>, lines: seq<int>, stray: seq<bool>, a: real, s: real)
    requires OnLines(cands, lines, stray, a, s)
    ensures |lines| == |cands| == |stray|
  {}

  lemma PointOnOrOff(cands: seq<int>, lines: seq<int>, stray: seq<bool>, a: real, s: real, gap: real, i: nat, j: nat)
    requires OnLines(cands, lines, stray, a, s) && StraysAreOff(cands, stray, a, s, gap)
    requires s > 0.0 && i < |cands| && !stray[i] && lines[i] >= 0 && j < |cands|
    ensures var q := Point(SlotAt(cands[j], cands[i], s, lines[i]) as real, cands[j] as real);
      OnOrOff(q, Fit(a, s), gap) && (!stray[j] ==> Residual(q, Fit(a, s)) == 0.0)
  {
    hide SlotAt, OffAllLines, Residual;
    if stray[j] {
      OffTheLine(cands[j], a, s, gap, SlotAt(cands[j], cands[i], s, lines[i]));
    } else {
      SlotOnLine(cands, lines, stray, a, s, i, j);
    }
  }

  /** Three points on g, when three are. */
  lemma {:induction false} ThreeOfCount(ps: seq<Point>, g: Fit, n: nat) returns (at: seq<nat>)
    requires Count(Residuals(ps, g), Within(0.0, 0.0)) >= n
    ensures |at| == n && (forall i :: 0 <= i < n ==> at[i] < |ps| && Residual(ps[at[i]], g) == 0.0)
    ensures forall i, j :: 0 <= i < j < n ==> at[i] != at[j]
  {
    hide Residual;
    if n == 0 {
      return [];
    }
    var t := ps[1..];
    assert Residuals(ps, g) == [Residual(ps[0], g)] + Residuals(t, g);
    var isOn := Residual(ps[0], g) == 0.0;
    var rest := ThreeOfCount(t, g, if isOn then n - 1 else n);
    at := Shifted(ps, rest, isOn);
    ShiftedIs(ps, g, rest, isOn);
  }

  /** Places in the tail as places in the whole, behind the first one if it counts too. */
  function Shifted(ps: seq<Point>, rest: seq<nat>, first: bool): seq<nat> {
    (if first then [0] else []) + seq(|rest|, i requires 0 <= i < |rest| => rest[i] + 1)
  }

  lemma ShiftedIs(ps: seq<Point>, g: Fit, rest: seq<nat>, first: bool)
    requires ps != [] && (first ==> Residual(ps[0], g) == 0.0)
    requires forall i :: 0 <= i < |rest| ==> rest[i] < |ps| - 1 && Residual(ps[1..][rest[i]], g) == 0.0
    requires forall i, j :: 0 <= i < j < |rest| ==> rest[i] != rest[j]
    ensures var at := Shifted(ps, rest, first);
      && |at| == |rest| + (if first then 1 else 0)
      && (forall i :: 0 <= i < |at| ==> at[i] < |ps| && Residual(ps[at[i]], g) == 0.0)
      && forall i, j :: 0 <= i < j < |at| ==> at[i] != at[j]
  {
    hide Residual;
    var at, k := Shifted(ps, rest, first), if first then 1 else 0;
    assert forall i :: k <= i < |at| ==> at[i] == rest[i - k] + 1 && ps[at[i]] == ps[1..][rest[i - k]];
  }

  /** Strays that pull the first line by at most half a percent of a period, and are themselves
      more than five percent off, are thrown away. */
  lemma FarStraysDropped(ps: seq<Point>, p: real, g: Fit, m: real)
    requires p > 0.0 && |ps| >= MIN_FIT_POINTS && Distinct(ps) && Spread(ps) > 0.0
    requires 2 * Count(Residuals(ps, g), Within(0.0, 0.0)) > |ps| && Count(Residuals(ps, g), Within(0.0, 0.0)) >= 3
    requires AllOnOrOff(ps, g, 0.05 * p)
    requires forall r :: r in ps ==> Abs(Mul(|ps| as real, r.x) - SumX(ps)) <= m
    requires Mul(SumAbs(ps, g), Spread(ps) + Mul(m, m)) <= Mul(Mul(|ps| as real, Spread(ps)), 0.005 * p)
    ensures Spread(Refit(ps, p)) != 0.0 && Refit(ps, p) != [] && PolyFit(Refit(ps, p)) == g
  {
    hide PolyFit, Spread, Residual, Distinct, Count, SumX, SumAbs, Mul, Refit, Residuals, ThreeOn;
    var f, u := PolyFit(ps), 0.005 * p;
    forall q | q in ps
      ensures OnOrFar(q, g, f, -u, u, p) && (Residual(q, g) == 0.0 ==> On(q, g, f, u))
    {
      PullBound(ps, g, m, u, q);
      assert OnOrOff(q, g, 0.05 * p);
    }
    var at := ThreeOfCount(ps, g, 3);
    ThreeAt(ps, g, f, u, at[0], at[1], at[2]);
    StraysDropped(ps, p, g, -u, u);
  }

  lemma ThreeAt(ps: seq<Point>, g: Fit, f: Fit, limit: real, i: nat, j: nat, k: nat)
    requires i < |ps| && j < |ps| && k < |ps| && i != j && j != k && k != i
    requires On(ps[i], g, f, limit) && On(ps[j], g, f, limit) && On(ps[k], g, f, limit)
    ensures ThreeOn(ps, g, f, limit)
  {}

  /** Main result: candidates on a + line * s, with strays among them that are more than five
      percent of a period off every line, still give exactly round(a + k * s) for every line k
      of the image. The anchor is no stray, most near-nominal gaps are s, the strays are less
      than half of the points, and they pull the first fit by at most half a percent. */
  lemma StraysDoNotMoveLines(cands: seq<int>, lines: seq<int>, stray: seq<bool>, a: real, s: real, p: real,
      maxLines: nat, hint: Option<real>, m: real, k: nat)
    requires OnLines(cands, lines, stray, a, s) && StraysAreOff(cands, stray, a, s, 0.05 * p)
    requires p > 0.0 && s > 0.0 && k < maxLines && |cands| >= MIN_FIT_POINTS
    requires var (i, slot) := Anchor(cands, p, Tolerance(p), hint);
      && i < |cands| && !stray[i] && lines[i] == slot
      && 2 * Count(NearDiffs(cands, i, p), Within(s, s)) > |NearDiffs(cands, i, p)|
      && var ps := Points(cands, i, cands[i], s, slot, Some(maxLines), {});
      && |ps| > 2 * StraysFrom(stray, i) && |ps| >= 3 + StraysFrom(stray, i)
      && (forall r :: r in ps ==> Abs(Mul(|ps| as real, r.x) - SumX(ps)) <= m)
      && Mul(SumAbs(ps, Fit(a, s)), Spread(ps) + Mul(m, m)) <= Mul(Mul(|ps| as real, Spread(ps)), 0.005 * p)
    ensures var starts := SlantStarts(cands, p, maxLines, hint);
      |starts| == maxLines && starts[k] == Round(a + Mul(k as real, s))
  {
    hide OnLines, StraysAreOff, Anchor, PolyFit, Residual, Points, Mul, Distinct, Spread, Refit, Count, SumX, SumAbs,
      NearDiffs, AllOnOrOff, Residuals, Median;
    var (i, slot) := Anchor(cands, p, Tolerance(p), hint);
    SameLengths(cands, lines, stray, a, s);
    MostBetween(NearDiffs(cands, i, p), s, s);
    var ps := Points(cands, i, cands[i], s, slot, Some(maxLines), {});
    PointsOfMost(cands, lines, stray, a, s, 0.05 * p, i, i, maxLines, {});
    SpreadPositive(ps);
    assert RawPoints(cands, p, Some(maxLines), hint) == Some(ps);
    FarStraysDropped(ps, p, Fit(a, s), m);
  }
}
