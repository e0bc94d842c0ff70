/** Straight-line least squares and the median, over exact reals
    (`np.polyfit(x, y, 1)` and `np.median`). */
module LeastSquares {

  datatype Point = Point(x: real, y: real)
  datatype Fit = Fit(intercept: real, slope: real)

  /** A product, named so that a proof can keep it closed (`hide Mul`). */
  function Mul(a: real, b: real): real { a * b }

  function SumX(ps: seq<Point>): real { if ps == [] then 0.0 else ps[0].x + SumX(ps[1..]) }
  function SumY(ps: seq<Point>): real { if ps == [] then 0.0 else ps[0].y + SumY(ps[1..]) }
  function SumXX(ps: seq<Point>): real { if ps == [] then 0.0 else Mul(ps[0].x, ps[0].x) + SumXX(ps[1..]) }
  function SumXY(ps: seq<Point>): real { if ps == [] then 0.0 else Mul(ps[0].x, ps[0].y) + SumXY(ps[1..]) }

  /** n * sum(x * x) - sum(x) ^ 2: zero when the x do not spread. */
  function Spread(ps: seq<Point>): real {
    Mul(|ps| as real, SumXX(ps)) - Mul(SumX(ps), SumX(ps))
  }

  function PolyFit(ps: seq<Point>): Fit
    requires ps != [] && Spread(ps) != 0.0
  {
    var n := |ps| as real;
    var slope := (Mul(n, SumXY(ps)) - Mul(SumX(ps), SumY(ps))) / Spread(ps);
    Fit((SumY(ps) - Mul(slope, SumX(ps))) / n, slope)
  }

  function Residual(p: Point, f: Fit): real {
    p.y - (f.intercept + Mul(f.slope, p.x))
  }

  /** Sum of squared residuals. */
  ghost function Sse(ps: seq<Point>, f: Fit): real {
    if ps == [] then 0.0 else Mul(Residual(ps[0], f), Residual(ps[0], f)) + Sse(ps[1..], f)
  }

  // ---- the fit minimises the squared residuals ----

  ghost function SumR(ps: seq<Point>, f: Fit): real {
    if ps == [] then 0.0 else Residual(ps[0], f) + SumR(ps[1..], f)
  }

  ghost function SumXR(ps: seq<Point>, f: Fit): real {
    if ps == [] then 0.0 else Mul(ps[0].x, Residual(ps[0], f)) + SumXR(ps[1..], f)
  }

  lemma Distribute(a: real, b: real, c: real)
    ensures Mul(a, b + c) == Mul(a, b) + Mul(a, c)
    ensures Mul(b + c, a) == Mul(b, a) + Mul(c, a)
  {}

  lemma Square(r: real, v: real)
    ensures Mul(r - v, r - v) == Mul(r, r) - 2.0 * Mul(v, r) + Mul(v, v)
    ensures Mul(v, v) >= 0.0
  {}

  lemma ProductPositive(a: real, b: real)
    requires a > 0.0 && b > 0.0
    ensures Mul(a, b) > 0.0
  {}

  lemma SquarePositive(v: real)
    requires v != 0.0
    ensures Mul(v, v) > 0.0
  {
    if v > 0.0 {
      ProductPositive(v, v);
    } else {
      ProductPositive(-v, -v);
      assert Mul(v, v) == Mul(-v, -v);
    }
  }

  lemma Associate(a: real, b: real, c: real)
    ensures Mul(Mul(a, b), c) == Mul(a, Mul(b, c)) == Mul(b, Mul(a, c))
    ensures Mul(a, b) == Mul(b, a)
  {}

  ghost function Plus(f: Fit, d: Fit): Fit {
    Fit(f.intercept + d.intercept, f.slope + d.slope)
  }

  /** Moving the line by d changes the residual sum by a cross term and a square. */
  lemma {:induction false} Moved(ps: seq<Point>, f: Fit, d: Fit)
    ensures Sse(ps, Plus(f, d)) >= Sse(ps, f) - 2.0 * Mul(d.intercept, SumR(ps, f)) - 2.0 * Mul(d.slope, SumXR(ps, f))
  {
    if ps == [] {
      assert Mul(d.intercept, 0.0) == 0.0 && Mul(d.slope, 0.0) == 0.0;
    } else {
      hide Mul, Residual, Plus;
      Moved(ps[1..], f, d);
      MovedOne(ps[0], f, d);
      Distribute(d.intercept, Residual(ps[0], f), SumR(ps[1..], f));
      Distribute(d.slope, Mul(ps[0].x, Residual(ps[0], f)), SumXR(ps[1..], f));
    }
  }

  lemma MovedOne(p: Point, f: Fit, d: Fit)
    ensures var r, r' := Residual(p, f), Residual(p, Plus(f, d));
      Mul(r', r') >= Mul(r, r) - 2.0 * Mul(d.intercept, r) - 2.0 * Mul(d.slope, Mul(p.x, r))
  {
    hide Mul;
    var r := Residual(p, f);
    var v := d.intercept + Mul(d.slope, p.x);
    Distribute(p.x, f.slope, d.slope);
    Square(r, v);
    Distribute(r, d.intercept, Mul(d.slope, p.x));
    Associate(d.slope, p.x, r);
  }

  lemma {:induction false} ResidualSums(ps: seq<Point>, f: Fit)
    ensures SumR(ps, f) == SumY(ps) - Mul(|ps| as real, f.intercept) - Mul(f.slope, SumX(ps))
    ensures SumXR(ps, f) == SumXY(ps) - Mul(f.intercept, SumX(ps)) - Mul(f.slope, SumXX(ps))
  {
    if ps == [] {
      assert Mul(0.0, f.intercept) == Mul(f.intercept, 0.0) == Mul(f.slope, 0.0) == 0.0;
    } else {
      hide Mul;
      ResidualSums(ps[1..], f);
      var p, t := ps[0], ps[1..];
      Distribute(f.intercept, |t| as real, 1.0);
      assert Mul(1.0, f.intercept) == f.intercept by { One(f.intercept); }
      Distribute(f.slope, p.x, SumX(t));
      Distribute(f.intercept, p.x, SumX(t));
      Distribute(f.slope, Mul(p.x, p.x), SumXX(t));
      XResidual(p, f);
    }
  }

  lemma One(a: real)
    ensures Mul(1.0, a) == a
  {}

  lemma XResidual(p: Point, f: Fit)
    ensures Mul(p.x, Residual(p, f)) == Mul(p.x, p.y) - Mul(f.intercept, p.x) - Mul(f.slope, Mul(p.x, p.x))
  {
    Distribute(p.x, p.y, -f.intercept - Mul(f.slope, p.x));
    Distribute(p.x, -f.intercept, -Mul(f.slope, p.x));
    Associate(f.slope, p.x, p.x);
  }

  /** The normal equations hold at the fit. */
  lemma NormalEquations(n: real, sx: real, sy: real, sxx: real, sxy: real, b: real, m: real)
    requires n != 0.0 && Mul(n, sxx) - Mul(sx, sx) != 0.0
    requires m == (Mul(n, sxy) - Mul(sx, sy)) / (Mul(n, sxx) - Mul(sx, sx)) && b == (sy - Mul(m, sx)) / n
    ensures sy - Mul(n, b) - Mul(m, sx) == 0.0
    ensures sxy - Mul(b, sx) - Mul(m, sxx) == 0.0
  {
    var d := n * sxx - sx * sx;
    assert m * d == n * sxy - sx * sy;
    assert n * b == sy - m * sx;
    var e := sxy - b * sx - m * sxx;
    calc {
      n * e;
      n * sxy - (n * b) * sx - m * (n * sxx);
      n * sxy - sy * sx + m * sx * sx - m * (n * sxx);
      n * sxy - sx * sy - m * d;
      0.0;
    }
  }

  lemma ZeroResidualSums(ps: seq<Point>)
    requires ps != [] && Spread(ps) != 0.0
    ensures SumR(ps, PolyFit(ps)) == 0.0 && SumXR(ps, PolyFit(ps)) == 0.0
  {
    hide Mul, SumX, SumY, SumXX, SumXY, SumR, SumXR;
    var f := PolyFit(ps);
    NormalEquations(|ps| as real, SumX(ps), SumY(ps), SumXX(ps), SumXY(ps), f.intercept, f.slope);
    ResidualSums(ps, f);
  }

  /** No other line has a smaller sum of squared residuals. */
  lemma FitMinimises(ps: seq<Point>, other: Fit)
    requires ps != [] && Spread(ps) != 0.0
    ensures Sse(ps, PolyFit(ps)) <= Sse(ps, other)
  {
    hide PolyFit, SumR, SumXR, Sse, Spread;
    var f := PolyFit(ps);
    ZeroResidualSums(ps);
    var d := Fit(other.intercept - f.intercept, other.slope - f.slope);
    Moved(ps, f, d);
    assert Mul(d.intercept, 0.0) == 0.0 && Mul(d.slope, 0.0) == 0.0;
    assert Plus(f, d) == other;
  }

  // ---- distinct x spread ----

  ghost predicate Distinct(ps: seq<Point>) {
    forall i, j :: 0 <= i < j < |ps| ==> ps[i].x != ps[j].x
  }

  /** Sum of squared distances from x. */
  ghost function Around(ps: seq<Point>, x: real): real {
    if ps == [] then 0.0 else Mul(ps[0].x - x, ps[0].x - x) + Around(ps[1..], x)
  }

  lemma {:induction false} AroundIs(ps: seq<Point>, x: real)
    ensures Around(ps, x) == SumXX(ps) - 2.0 * Mul(x, SumX(ps)) + Mul(|ps| as real, Mul(x, x))
    ensures Around(ps, x) >= 0.0
    ensures ps != [] && ps[0].x != x ==> Around(ps, x) > 0.0
  {
    if ps == [] {
      assert Mul(x, 0.0) == 0.0 && Mul(0.0, Mul(x, x)) == 0.0;
    } else {
      hide Mul;
      var t := ps[1..];
      AroundIs(t, x);
      Square(ps[0].x, x);
      Square(0.0, ps[0].x - x);
      if ps[0].x != x {
        SquarePositive(ps[0].x - x);
      }
      Distribute(x, ps[0].x, SumX(t));
      Distribute(Mul(x, x), |t| as real, 1.0);
      One(Mul(x, x));
    }
  }

  lemma {:induction false} SpreadPositive(ps: seq<Point>)
    requires Distinct(ps)
    ensures Spread(ps) >= 0.0
    ensures |ps| >= 2 ==> Spread(ps) > 0.0
  {
    if ps != [] {
      var t, x := ps[1..], ps[0].x;
      assert forall i, j :: 0 <= i < j < |t| ==> t[i] == ps[i + 1] && t[j] == ps[j + 1];
      SpreadPositive(t);
      AroundIs(t, x);
      SpreadStep(|t| as real, SumX(t), SumXX(t), x);
      if |ps| >= 2 {
        assert t[0] == ps[1];
      }
      hide Mul;
    }
  }

  lemma SpreadStep(n: real, sx: real, sxx: real, x: real)
    ensures Mul(n + 1.0, Mul(x, x) + sxx) - Mul(x + sx, x + sx)
         == (Mul(n, sxx) - Mul(sx, sx)) + (sxx - 2.0 * Mul(x, sx) + Mul(n, Mul(x, x)))
  {}

  // ---- points on a line are fitted exactly ----

  ghost predicate OnLine(ps: seq<Point>, f: Fit) {
    forall i :: 0 <= i < |ps| ==> Residual(ps[i], f) == 0.0
  }

  lemma {:induction false} LineSums(ps: seq<Point>, f: Fit)
    requires OnLine(ps, f)
    ensures SumR(ps, f) == 0.0 && SumXR(ps, f) == 0.0
  {
    if ps != [] {
      hide Residual;
      assert Residual(ps[0], f) == 0.0;
      LineSums(ps[1..], f);
    }
  }

  lemma FitOfLine(ps: seq<Point>, f: Fit)
    requires ps != [] && Spread(ps) != 0.0 && OnLine(ps, f)
    ensures PolyFit(ps) == f
  {
    LineSums(ps, f);
    ResidualSums(ps, f);
    hide Mul, SumX, SumY, SumXX, SumXY, SumR, SumXR, OnLine;
    UniqueSolution(|ps| as real, SumX(ps), SumY(ps), SumXX(ps), SumXY(ps), f.intercept, f.slope);
  }

  lemma UniqueSolution(n: real, sx: real, sy: real, sxx: real, sxy: real, b: real, m: real)
    requires n != 0.0 && Mul(n, sxx) - Mul(sx, sx) != 0.0
    requires sy == Mul(n, b) + Mul(m, sx) && sxy == Mul(b, sx) + Mul(m, sxx)
    ensures (Mul(n, sxy) - Mul(sx, sy)) / (Mul(n, sxx) - Mul(sx, sx)) == m
    ensures (sy - Mul(m, sx)) / n == b
  {
    var d := n * sxx - sx * sx;
    assert n * sxy - sx * sy == m * d by {
      assert n * (b * sx + m * sxx) - sx * (n * b + m * sx) == m * (n * sxx) - m * (sx * sx);
    }
    Cancel(m, d);
    Cancel(b, n);
    assert sy - m * sx == b * n;
  }

  lemma Cancel(a: real, d: real)
    requires d != 0.0
    ensures (a * d) / d == a
  {}

  // ---- median ----

  ghost predicate Ascending(s: seq<real>) {
    forall i, j :: 0 <= i < j < |s| ==> s[i] <= s[j]
  }

  function Insert(x: real, s: seq<real>): (r: seq<real>)
    ensures |r| == |s| + 1
  {
    if s == [] || x <= s[0] then [x] + s else [s[0]] + Insert(x, s[1..])
  }

  function Sort(s: seq<real>): (r: seq<real>)
    ensures |r| == |s|
  {
    if s == [] then [] else Insert(s[0], Sort(s[1..]))
  }

  lemma {:induction false} InsertPermutes(x: real, s: seq<real>)
    ensures multiset(Insert(x, s)) == multiset(s) + multiset{x}
  {
    if s != [] && x > s[0] {
      InsertPermutes(x, s[1..]);
      assert s == [s[0]] + s[1..];
    }
  }

  lemma {:induction false} InsertAscends(x: real, s: seq<real>)
    requires Ascending(s)
    ensures Ascending(Insert(x, s))
    ensures Insert(x, s)[0] == if s == [] || x <= s[0] then x else s[0]
  {
    if s != [] && x > s[0] {
      var t := s[1..];
      assert forall i, j :: 0 <= i < j < |t| ==> t[i] == s[i + 1] && t[j] == s[j + 1];
      InsertAscends(x, t);
      var r := Insert(x, t);
      assert s[0] <= r[0];
      assert forall i :: 0 <= i < |r| ==> r[0] <= r[i];
    }
  }

  /** Sort is the ascending permutation. */
  lemma {:induction false} SortSorts(s: seq<real>)
    ensures multiset(Sort(s)) == multiset(s) && Ascending(Sort(s))
  {
    if s != [] {
      SortSorts(s[1..]);
      InsertPermutes(s[0], Sort(s[1..]));
      InsertAscends(s[0], Sort(s[1..]));
      assert s == [s[0]] + s[1..];
    }
  }

  /** The middle value, or the mean of the two middle ones. */
  function Median(s: seq<real>): real
    requires s != []
  {
    var r := Sort(s);
    var h := |r| / 2;
    if |r| % 2 == 1 then r[h] else (r[h - 1] + r[h]) / 2.0
  }

  /** Values between lo and hi have a median between lo and hi. */
  lemma MedianBetween(s: seq<real>, lo: real, hi: real)
    requires s != [] && forall i :: 0 <= i < |s| ==> lo <= s[i] <= hi
    ensures lo <= Median(s) <= hi
  {
    var r := Sort(s);
    SortSorts(s);
    forall i | 0 <= i < |r| ensures lo <= r[i] <= hi {
      assert r[i] in multiset(r);
      assert r[i] in s;
    }
  }
}
