/** Slant correction: a least-squares line through the sync candidates
    (`fit_line_timing` and `slant_corrected_line_starts` of core/slant.py). */
module SlantFit {
  import opened Prelude
  import opened Rounding
  import opened SyncGrid
  import opened LeastSquares

  const MIN_FIT_POINTS := 3

  /** Gaps after candidate i that are one nominal period long, within tolerance. */
  function NearDiffs(cands: seq<int>, i: nat, p: real): (ds: seq<real>)
    ensures forall j :: 0 <= j < |ds| ==> p - Tolerance(p) <= ds[j] <= p + Tolerance(p)
    decreases |cands| - i
  {
    if i + 1 >= |cands| then [] else
    var d := (cands[i + 1] - cands[i]) as real;
    (if p - Tolerance(p) <= d <= p + Tolerance(p) then [d] else []) + NearDiffs(cands, i + 1, p)
  }

  /** The real line period, or None without a near-nominal gap. */
  function InferredPeriod(cands: seq<int>, i: nat, p: real): (r: Option<real>)
    requires p > 0.0
    ensures r.Some? ==> r.value > 0.0
  {
    var ds := NearDiffs(cands, i, p);
    if ds == [] then None
    else
      MedianBetween(ds, p - Tolerance(p), p + Tolerance(p));
      Some(Median(ds))
  }

  function SlotAt(c: int, pos0: int, period: real, slot: nat): int
    requires period > 0.0
  {
    slot + Round((c - pos0) as real / period)
  }

  ghost predicate Fresh(ps: seq<Point>, seen: set<int>) {
    forall i, s: int :: 0 <= i < |ps| && s in seen ==> ps[i].x != s as real
  }

  /** One point (slot, position) per line slot, the first candidate of a slot winning. */
  function Points(cands: seq<int>, j: nat, pos0: int, period: real, slot: nat, maxLines: Option<int>,
      seen: set<int>): (ps: seq<Point>)
    requires period > 0.0
    ensures Distinct(ps) && Fresh(ps, seen)
    decreases |cands| - j
  {
    if j >= |cands| then [] else
    var idx := SlotAt(cands[j], pos0, period, slot);
    if idx < 0 || idx in seen then Points(cands, j + 1, pos0, period, slot, maxLines, seen)
    else if maxLines.Some? && idx >= maxLines.value then []
    else
      var rest := Points(cands, j + 1, pos0, period, slot, maxLines, seen + {idx});
      assert forall i :: 0 <= i < |rest| ==> rest[i].x != idx as real;
      [Point(idx as real, cands[j] as real)] + rest
  }

  method AssignSlots(cands: seq<int>, first: nat, pos0: int, period: real, slot: nat, maxLines: Option<int>)
      returns (ps: seq<Point>)
    requires period > 0.0 && first <= |cands|
    ensures ps == Points(cands, first, pos0, period, slot, maxLines, {})
  {
    var seen: set<int> := {};
    ps := [];
    for j: nat := first to |cands|
      invariant Points(cands, first, pos0, period, slot, maxLines, {})
        == ps + Points(cands, j, pos0, period, slot, maxLines, seen)
    {
      var idx := SlotAt(cands[j], pos0, period, slot);
      if !(idx < 0 || idx in seen) {
        if maxLines.Some? && idx >= maxLines.value {
          break;
        }
        seen := seen + {idx};
        ps := ps + [Point(idx as real, cands[j] as real)];
      }
    }
  }

  // ---- one outlier-rejection refit ----

  function Residuals(ps: seq<Point>, f: Fit): (rs: seq<real>)
    ensures |rs| == |ps| && forall i :: 0 <= i < |ps| ==> rs[i] == Residual(ps[i], f)
  {
    seq(|ps|, i requires 0 <= i < |ps| => Residual(ps[i], f))
  }

  /** Median absolute deviation. */
  function Mad(rs: seq<real>): (m: real)
    requires rs != []
  {
    var c := Median(rs);
    Median(seq(|rs|, i requires 0 <= i < |rs| => Abs(rs[i] - c)))
  }

  function Limit(ps: seq<Point>, f: Fit, p: real): (l: real)
    requires ps != []
    ensures l >= 0.005 * p
  {
    var robust := 3.0 * 1.4826 * Mad(Residuals(ps, f));
    if robust > 0.005 * p then robust else 0.005 * p
  }

  function Keep(ps: seq<Point>, f: Fit, limit: real): seq<Point> {
    if ps == [] then []
    else (if Abs(Residual(ps[0], f)) <= limit then [ps[0]] else []) + Keep(ps[1..], f, limit)
  }

  /** The points behind the returned line: those within the limit, or all of
      them when none is an outlier or too few would stay. */
  function Refit(ps: seq<Point>, p: real): seq<Point>
    requires ps != [] && Spread(ps) != 0.0
  {
    var f := PolyFit(ps);
    var kept := Keep(ps, f, Limit(ps, f, p));
    if |kept| < |ps| && |kept| >= MIN_FIT_POINTS then kept else ps
  }

  lemma {:induction false} KeepSelects(ps: seq<Point>, f: Fit, limit: real)
    ensures forall q :: q in Keep(ps, f, limit) <==> q in ps && Abs(Residual(q, f)) <= limit
    ensures |Keep(ps, f, limit)| <= |ps|
  {
    if ps != [] {
      hide Residual, Abs;
      KeepSelects(ps[1..], f, limit);
      assert ps == [ps[0]] + ps[1..];
    }
  }

  /** Keep drops points without reordering: any order by x survives. */
  lemma {:induction false} KeepOrder(ps: seq<Point>, f: Fit, limit: real)
    ensures Distinct(ps) ==> Distinct(Keep(ps, f, limit))
    ensures Increasing(ps) ==> Increasing(Keep(ps, f, limit))
  {
    hide Residual, Abs, Distinct, Increasing;
    if ps == [] {
      NothingInOrder();
    } else {
      var t, k := ps[1..], Keep(ps[1..], f, limit);
      KeepOrder(t, f, limit);
      KeepSelects(t, f, limit);
      assert ps == [ps[0]] + t;
      TailInOrder(ps[0], t);
      HeadInOrder(ps[0], t, k);
      assert Keep(ps, f, limit) == if Abs(Residual(ps[0], f)) <= limit then [ps[0]] + k else k;
    }
  }

  lemma NothingInOrder()
    ensures Distinct([]) && Increasing([])
  {}

  lemma TailInOrder(h: Point, t: seq<Point>)
    ensures Distinct([h] + t) ==> Distinct(t)
    ensures Increasing([h] + t) ==> Increasing(t)
  {
    var ps := [h] + t;
    assert forall i :: 0 <= i < |t| ==> ps[i + 1] == t[i];
  }

  lemma HeadInOrder(h: Point, t: seq<Point>, k: seq<Point>)
    requires forall q :: q in k ==> q in t
    ensures Distinct([h] + t) && Distinct(k) ==> Distinct([h] + k)
    ensures Increasing([h] + t) && Increasing(k) ==> Increasing([h] + k)
  {
    hide Distinct, Increasing;
    forall q | q in k ensures (Distinct([h] + t) ==> h.x != q.x) && (Increasing([h] + t) ==> h.x < q.x) {
      TailPoint(h, t, q);
    }
    if Distinct([h] + t) && Distinct(k) {
      DistinctCons(h, k);
    }
    if Increasing([h] + t) && Increasing(k) {
      DistinctIncreasing(k);
      DistinctCons(h, k);
      IncreasingCons(h, k);
    }
  }

  lemma TailPoint(h: Point, t: seq<Point>, q: Point)
    requires q in t
    ensures Distinct([h] + t) ==> h.x != q.x
    ensures Increasing([h] + t) ==> h.x < q.x
  {
    var j :| 0 <= j < |t| && t[j] == q;
    var ps := [h] + t;
    assert ps[0] == h && ps[j + 1] == q;
  }

  lemma DistinctCons(h: Point, k: seq<Point>)
    requires Distinct(k) && forall q :: q in k ==> h.x != q.x
    ensures Distinct([h] + k)
  {
    var ks := [h] + k;
    assert forall i :: 1 <= i < |ks| ==> ks[i] == k[i - 1] && ks[i] in k;
  }

  lemma DistinctIncreasing(k: seq<Point>)
    requires Increasing(k)
    ensures Distinct(k)
  {}

  /** The points of the first fit: every candidate from the anchor on, by slot. */
  function RawPoints(cands: seq<int>, p: real, maxLines: Option<int>, hint: Option<real>): (r: Option<seq<Point>>)
    ensures r.Some? ==> |r.value| >= MIN_FIT_POINTS && Distinct(r.value) && Spread(r.value) != 0.0
  {
    if p <= 0.0 || |cands| < MIN_FIT_POINTS then None else
    var (i, slot) := Anchor(cands, p, Tolerance(p), hint);
    var period := InferredPeriod(cands, i, p);
    if period.None? then None else
    var ps := Points(cands, i, cands[i], period.value, slot, maxLines, {});
    if |ps| < MIN_FIT_POINTS then None else
    SpreadPositive(ps);
    Some(ps)
  }

  /** The points the returned line is fitted to, if there is one. */
  function FitPoints(cands: seq<int>, p: real, maxLines: Option<int>, hint: Option<real>): (r: Option<seq<Point>>)
    ensures r.Some? ==> |r.value| >= MIN_FIT_POINTS && Distinct(r.value) && Spread(r.value) != 0.0
  {
    var ps := RawPoints(cands, p, maxLines, hint);
    if ps.None? then None else
    RefitSound(ps.value, p);
    Some(Refit(ps.value, p))
  }

  lemma RefitSound(ps: seq<Point>, p: real)
    requires |ps| >= MIN_FIT_POINTS && Distinct(ps) && Spread(ps) != 0.0
    ensures var r := Refit(ps, p); |r| >= MIN_FIT_POINTS && Distinct(r) && Spread(r) != 0.0
    ensures Increasing(ps) ==> Increasing(Refit(ps, p))
    ensures forall q :: q in Refit(ps, p) ==> q in ps
  {
    hide Spread, PolyFit, Limit, Residual, Increasing;
    KeepSelects(ps, PolyFit(ps), Limit(ps, PolyFit(ps), p));
    KeepOrder(ps, PolyFit(ps), Limit(ps, PolyFit(ps), p));
    SpreadPositive(Refit(ps, p));
  }

  /** `fit_line_timing`: (intercept, slope), or None when under-determined. The slots
      are distinct, so the source's guard against a single x never fires. */
  method FitLineTiming(cands: seq<int>, p: real, maxLines: Option<int>, hint: Option<real>) returns (fit: Option<Fit>)
    ensures var kept := FitPoints(cands, p, maxLines, hint);
      fit == if kept.None? then None else Some(PolyFit(kept.value))
  {
    if p <= 0.0 || |cands| < MIN_FIT_POINTS {
      return None;
    }
    hide Points, PolyFit, Anchor, Refit, Spread, Distinct, Fresh, InferredPeriod;
    var anchorIdx, slot := SelectAnchor(cands, p, Tolerance(p), hint);
    var period := InferredPeriod(cands, anchorIdx, p);
    if period.None? {
      return None;
    }
    var ps := AssignSlots(cands, anchorIdx, cands[anchorIdx], period.value, slot, maxLines);
    if |ps| < MIN_FIT_POINTS {
      return None;
    }
    assert RawPoints(cands, p, maxLines, hint) == Some(ps);
    RefitSound(ps, p);
    return Some(PolyFit(Refit(ps, p)));
  }

  function Project(f: Fit, n: nat): (starts: seq<int>)
    ensures |starts| == n && forall i :: 0 <= i < n ==> starts[i] == Round(f.intercept + Mul(i as real, f.slope))
  {
    seq(n, i => Round(f.intercept + Mul(i as real, f.slope)))
  }

  /** `slant_corrected_line_starts`. */
  method SlantCorrectedLineStarts(cands: seq<int>, p: real, maxLines: int, hint: Option<real>)
      returns (starts: seq<int>)
    ensures starts == SlantStarts(cands, p, maxLines, hint)
  {
    if cands == [] || p <= 0.0 || maxLines <= 0 {
      return [];
    }
    hide Grid, FitPoints, PolyFit, Spread;
    var fit := FitLineTiming(cands, p, Some(maxLines), hint);
    if fit.None? {
      starts := WalkSyncGrid(cands, p, maxLines, hint);
    } else {
      starts := Project(fit.value, maxLines);
    }
  }

  function SlantStarts(cands: seq<int>, p: real, maxLines: int, hint: Option<real>): seq<int> {
    if cands == [] || p <= 0.0 || maxLines <= 0 then [] else
    match FitPoints(cands, p, Some(maxLines), hint)
    case None => Grid(cands, p, maxLines, hint)
    case Some(kept) => Project(PolyFit(kept), maxLines)
  }

  // ---- the fit uses each slot of the image at most once, in order ----

  ghost predicate Increasing(ps: seq<Point>) {
    forall i, j :: 0 <= i < j < |ps| ==> ps[i].x < ps[j].x
  }

  ghost predicate Sorted(cands: seq<int>) {
    forall i, j :: 0 <= i < j < |cands| ==> cands[i] <= cands[j]
  }

  /** A point made of a line slot of the image and one of the candidates. */
  ghost predicate SlotPoint(q: Point, cands: seq<int>, maxLines: int) {
    var s, c := q.x.Floor, q.y.Floor;
    0 <= s < maxLines && c in cands && q == Point(s as real, c as real)
  }

  lemma SlotMonotone(c: int, d: int, pos0: int, period: real, slot: nat)
    requires period > 0.0 && c <= d
    ensures SlotAt(c, pos0, period, slot) <= SlotAt(d, pos0, period, slot)
  {
    QuotientMonotone((c - pos0) as real, (d - pos0) as real, period);
    RoundMonotone((c - pos0) as real / period, (d - pos0) as real / period);
  }

  lemma {:induction false} PointsAreSlots(cands: seq<int>, j: nat, pos0: int, period: real, slot: nat, maxLines: int,
      seen: set<int>)
    requires period > 0.0
    ensures forall q ::
      q in Points(cands, j, pos0, period, slot, Some(maxLines), seen) ==> SlotPoint(q, cands, maxLines)
    decreases |cands| - j
  {
    if j < |cands| {
      hide SlotAt, Distinct, Fresh;
      var idx := SlotAt(cands[j], pos0, period, slot);
      if idx < 0 || idx in seen {
        PointsAreSlots(cands, j + 1, pos0, period, slot, maxLines, seen);
      } else if idx < maxLines {
        PointsAreSlots(cands, j + 1, pos0, period, slot, maxLines, seen + {idx});
      }
    }
  }

  lemma {:induction false} PointsAbove(cands: seq<int>, j: nat, pos0: int, period: real, slot: nat, maxLines: int,
      seen: set<int>, lo: int)
    requires period > 0.0 && Sorted(cands) && (j < |cands| ==> lo <= SlotAt(cands[j], pos0, period, slot))
    ensures forall q :: q in Points(cands, j, pos0, period, slot, Some(maxLines), seen) ==> lo as real <= q.x
    decreases |cands| - j
  {
    if j < |cands| {
      if j + 1 < |cands| {
        SlotMonotone(cands[j], cands[j + 1], pos0, period, slot);
      }
      hide SlotAt, Distinct, Fresh, Sorted;
      var idx := SlotAt(cands[j], pos0, period, slot);
      PointsAbove(cands, j + 1, pos0, period, slot, maxLines, seen, lo);
      PointsAbove(cands, j + 1, pos0, period, slot, maxLines, seen + {idx}, lo);
    }
  }

  lemma {:induction false} PointsInOrder(cands: seq<int>, j: nat, pos0: int, period: real, slot: nat, maxLines: int,
      seen: set<int>)
    requires period > 0.0 && Sorted(cands)
    ensures Increasing(Points(cands, j, pos0, period, slot, Some(maxLines), seen))
    decreases |cands| - j
  {
    if j < |cands| {
      if j + 1 < |cands| {
        SlotMonotone(cands[j], cands[j + 1], pos0, period, slot);
      }
      hide SlotAt, Sorted, Fresh, Increasing;
      var idx := SlotAt(cands[j], pos0, period, slot);
      if idx < 0 || idx in seen {
        PointsInOrder(cands, j + 1, pos0, period, slot, maxLines, seen);
      } else if idx < maxLines {
        PointsInOrder(cands, j + 1, pos0, period, slot, maxLines, seen + {idx});
        PointsAbove(cands, j + 1, pos0, period, slot, maxLines, seen + {idx}, idx);
        IncreasingCons(Point(idx as real, cands[j] as real),
            Points(cands, j + 1, pos0, period, slot, Some(maxLines), seen + {idx}));
      } else {
        NoneIncreasing();
      }
    } else {
      NoneIncreasing();
    }
  }

  lemma NoneIncreasing()
    ensures Increasing([])
  {}

  lemma IncreasingCons(h: Point, rest: seq<Point>)
    requires Increasing(rest) && Distinct([h] + rest) && forall q :: q in rest ==> h.x <= q.x
    ensures Increasing([h] + rest)
  {
    var ps := [h] + rest;
    assert forall i :: 1 <= i < |ps| ==> ps[i] == rest[i - 1] && ps[i] in rest && ps[0].x != ps[i].x;
  }

  /** Main result: the fitted points are a choice of at most one candidate per line
      slot of the image, in increasing order, and no line fits them better. */
  lemma FitIsLeastSquares(cands: seq<int>, p: real, maxLines: int, hint: Option<real>, other: Fit)
    requires Sorted(cands) && FitPoints(cands, p, Some(maxLines), hint).Some?
    ensures var kept := FitPoints(cands, p, Some(maxLines), hint).value;
      && Increasing(kept)
      && (forall i :: 0 <= i < |kept| ==> SlotPoint(kept[i], cands, maxLines))
      && Sse(kept, PolyFit(kept)) <= Sse(kept, other)
  {
    hide Anchor, PolyFit, Sse, Spread, InferredPeriod, Sorted, Increasing, SlotPoint, Points, Refit;
    var (i, slot) := Anchor(cands, p, Tolerance(p), hint);
    PointsInOrder(cands, i, cands[i], InferredPeriod(cands, i, p).value, slot, maxLines, {});
    PointsAreSlots(cands, i, cands[i], InferredPeriod(cands, i, p).value, slot, maxLines, {});
    RefitSound(RawPoints(cands, p, Some(maxLines), hint).value, p);
    FitMinimises(FitPoints(cands, p, Some(maxLines), hint).value, other);
  }
}
