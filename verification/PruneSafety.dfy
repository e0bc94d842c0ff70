/** How far the live decoder may trim: the predicted next sync against the true one. */
module PruneSafety {
  import opened Prelude
  import opened Rounding
  import opened SyncGrid
  import opened GridSafety

  /** Largest error of a grid entry (NumberingNeverSlips). */
  ghost function GridError(s: Signal): real {
    s.e + (if s.m == 0 then 1.0 else s.m as real) / 2.0
  }

  /** The next sync, buffer-relative, as pruning sees it: the grid's own position,
      or one period after the last candidate once the grid has been used up. */
  function NextSync(cands: seq<int>, p: real, gridLen: int, hint: real, consumed: nat): int
    requires cands != []
  {
    var g := Grid(cands, p, gridLen, Some(hint));
    if consumed < |g| then g[consumed] else Trunc(cands[|cands| - 1] as real + p)
  }

  // ---- moving the origin ----

  function Relative(cands: seq<int>, origin: int): (r: seq<int>)
    ensures |r| == |cands| && forall i :: 0 <= i < |cands| ==> r[i] == cands[i] - origin
  {
    seq(|cands|, i requires 0 <= i < |cands| => cands[i] - origin)
  }

  ghost function Moved(s: Signal, origin: int): Signal {
    s.(a := s.a - origin as real)
  }

  lemma {:induction false} MovedLine(s: Signal, origin: int, k: nat)
    ensures Moved(s, origin).Line(k) == s.Line(k) - origin as real
  {
    if k > 0 {
      MovedLine(s, origin, k - 1);
    }
  }

  lemma MovedNear(s: Signal, origin: int, c: int, k: nat)
    ensures Moved(s, origin).Near(c - origin, k) == s.Near(c, k)
  {
    MovedLine(s, origin, k);
    hide Signal.Line;
  }

  lemma MovedReceived(s: Signal, origin: int, cands: seq<int>, k: nat)
    ensures Moved(s, origin).Received(Relative(cands, origin), k) == s.Received(cands, k)
  {
    hide Signal.Near, Moved;
    forall i | 0 <= i < |cands| ensures Moved(s, origin).Near(Relative(cands, origin)[i], k) == s.Near(cands[i], k) {
      MovedNear(s, origin, cands[i], k);
    }
  }

  lemma MovedSpurious(s: Signal, origin: int, c: int)
    requires s.Spurious(c)
    ensures Moved(s, origin).Spurious(c - origin)
  {
    forall k: nat
      ensures Abs((c - origin) as real - Moved(s, origin).Line(k)) > Tolerance(s.p) + s.e + s.m as real / 2.0
    {
      MovedLine(s, origin, k);
      hide Signal.Line;
      assert Abs(c as real - s.Line(k)) > Tolerance(s.p) + s.e + s.m as real / 2.0;
    }
  }

  lemma MovedBoundedLoss(s: Signal, origin: int, cands: seq<int>)
    requires s.BoundedLoss(cands)
    ensures Moved(s, origin).BoundedLoss(Relative(cands, origin))
  {
    var s', c' := Moved(s, origin), Relative(cands, origin);
    forall k: nat, n: nat {:trigger s'.Received(c', k), s'.Line(n)}
      | k + s'.m < n && s'.Received(c', k) && |c'| > 0 && s'.Line(n) < c'[|c'| - 1] as real
      ensures exists j: nat :: n - s'.m <= j <= n && s'.Received(c', j)
    {
      MovedReceived(s, origin, cands, k);
      MovedLine(s, origin, n);
      hide Signal.Line, Signal.Received;
      assert s.Line(n) < cands[|cands| - 1] as real;
      var j: nat :| n - s.m <= j <= n && s.Received(cands, j);
      MovedReceived(s, origin, cands, j);
    }
  }

  /** The hypotheses on a received signal do not depend on the origin. */
  lemma MovedAdmissible(s: Signal, origin: int, cands: seq<int>, hint: real)
    requires s.Admissible(cands, hint)
    ensures Moved(s, origin).Admissible(Relative(cands, origin), hint - origin as real)
  {
    hide Signal.BoundedLoss, Signal.Received, Signal.Near, Signal.Spurious;
    MovedBoundedLoss(s, origin, cands);
    var s', c' := Moved(s, origin), Relative(cands, origin);
    forall i | 0 <= i < |c'| ensures s'.Spurious(c'[i]) || exists k: nat :: s'.Near(c'[i], k) {
      if s.Spurious(cands[i]) {
        MovedSpurious(s, origin, cands[i]);
      } else {
        var k: nat :| s.Near(cands[i], k);
        MovedNear(s, origin, cands[i], k);
      }
    }
    var k: nat :| s.Received(cands, k);
    MovedReceived(s, origin, cands, k);
  }

  // ---- the prediction ----

  lemma Monotone(s: Signal, j: nat, k: nat)
    requires s.p > 0.0 && j <= k
    ensures s.Line(j) <= s.Line(k)
  {
    if j < k {
      LineApart(s, j, k);
    }
  }

  /** The last candidate is never before the last line of the grid. */
  lemma {:induction false} WalkNotPastLast(cands: seq<int>, next: nat, p: real, room: nat, last: int)
    requires p >= 4.0 && forall i, j :: 0 <= i < j < |cands| ==> cands[i] <= cands[j]
    requires cands != [] && last <= cands[|cands| - 1]
    ensures var w := Walk(cands, next, p, Tolerance(p), room, last);
      w != [] ==> w[|w| - 1].Value() <= cands[|cands| - 1]
    decreases room, |cands| - next
  {
    if room > 0 && next < |cands| {
      var expected := last as real + p;
      var c := cands[next];
      if c as real < expected - Tolerance(p) {
        WalkNotPastLast(cands, next + 1, p, room, last);
      } else if Abs(c as real - expected) <= Tolerance(p) {
        WalkNotPastLast(cands, next + 1, p, room - 1, c);
      } else {
        WalkNotPastLast(cands, next, p, room - 1, Round(expected));
      }
    }
  }

  lemma GridNotPastLast(cands: seq<int>, p: real, gridLen: int, hint: Option<real>)
    requires p >= 4.0 && forall i, j :: 0 <= i < j < |cands| ==> cands[i] <= cands[j]
    ensures var g := Grid(cands, p, gridLen, hint);
      g != [] && |g| < gridLen ==> cands != [] && g[|g| - 1] <= cands[|cands| - 1]
  {
    hide Walk, Anchor, Back;
    if cands != [] && gridLen > 0 {
      var (i, slot) := Anchor(cands, p, Tolerance(p), hint);
      if slot < gridLen {
        WalkNotPastLast(cands, i + 1, p, gridLen - slot - 1, cands[i]);
        var es := Entries(cands, p, gridLen, hint);
        var w := Walk(cands, i + 1, p, Tolerance(p), gridLen - slot - 1, cands[i]);
        assert w != [] ==> es[|es| - 1] == w[|w| - 1];
        assert w == [] ==> es[|es| - 1] == Found(cands[i]);
        assert Grid(cands, p, gridLen, hint)[|es| - 1] == es[|es| - 1].Value();
      }
    }
  }

  /** While the image is incomplete, a grid entry bounds its line; with no entry
      left, a last candidate that is not noise does. */
  lemma PredictionSafe(s: Signal, cands: seq<int>, hint: real, gridLen: nat, consumed: nat)
    requires s.Admissible(cands, hint) && cands != [] && consumed < gridLen
    requires consumed < |Grid(cands, s.p, gridLen, Some(hint))| || !s.Spurious(cands[|cands| - 1])
    ensures NextSync(cands, s.p, gridLen, hint, consumed) as real <= s.Line(consumed) + GridError(s) + 1.0
  {
    hide Signal.Admissible, Grid, Signal.Line, Signal.Received, Signal.Near;
    Parts(s, cands, hint);
    var g := Grid(cands, s.p, gridLen, Some(hint));
    GridLength(cands, s.p, gridLen, Some(hint));
    if consumed < |g| {
      NumberingNeverSlips(s, cands, hint, gridLen, consumed);
    } else {
      var last := cands[|cands| - 1];
      var k := LineOfLast(s, cands, hint);
      if k >= gridLen {
        LastBeyond(s, cands, hint, gridLen, k);
      }
      assert s.Received(cands, k) by { LastReceived(s, cands, k); }
      NumberingNeverSlips(s, cands, hint, gridLen, k);
      Monotone(s, k + 1, consumed);
      NextLine(s, k);
      assert last as real <= s.Line(k) + s.e by { NearBound(s, last, k); }
    }
  }

  lemma NearBound(s: Signal, c: int, k: nat)
    requires s.Near(c, k)
    ensures c as real <= s.Line(k) + s.e
  {}

  lemma LastReceived(s: Signal, cands: seq<int>, k: nat)
    requires cands != [] && s.Near(cands[|cands| - 1], k)
    ensures s.Received(cands, k)
  {}

  lemma NextLine(s: Signal, k: nat)
    ensures s.Line(k + 1) == s.Line(k) + s.p
  {}

  // ---- how far the prediction can overshoot ----

  /** A walk that used up the candidates leaves none of them three quarters of a period
      past its last line. */
  lemma {:induction false} WalkUsesUp(cands: seq<int>, next: nat, p: real, room: nat, last: int)
    requires p > 0.0 && 0 < next <= |cands| && cands[next - 1] as real < last as real + 0.75 * p
    ensures var w := Walk(cands, next, p, Tolerance(p), room, last);
      |w| < room ==> cands[|cands| - 1] as real < (if w == [] then last else w[|w| - 1].Value()) as real + 0.75 * p
    decreases room, |cands| - next
  {
    if room > 0 && next < |cands| {
      var expected := last as real + p;
      var c := cands[next];
      if c as real < expected - Tolerance(p) {
        WalkUsesUp(cands, next + 1, p, room, last);
      } else if Abs(c as real - expected) <= Tolerance(p) {
        WalkUsesUp(cands, next + 1, p, room - 1, c);
      } else {
        StillBefore(cands, next, p, last);
        WalkUsesUp(cands, next, p, room - 1, Round(expected));
      }
    }
  }

  lemma StillBefore(cands: seq<int>, next: nat, p: real, last: int)
    requires p > 0.0 && 0 < next <= |cands| && cands[next - 1] as real < last as real + 0.75 * p
    ensures cands[next - 1] as real < Round(last as real + p) as real + 0.75 * p
  {
    if p < 1.0 {
      RoundMonotone(last as real, last as real + p);
      RoundUnique(last as real, last);
    }
  }

  lemma GridUsesUp(cands: seq<int>, p: real, gridLen: int, hint: Option<real>)
    requires p > 0.0
    ensures var g := Grid(cands, p, gridLen, hint);
      g != [] && |g| < gridLen ==> cands != [] && cands[|cands| - 1] as real < g[|g| - 1] as real + 0.75 * p
  {
    hide Walk, Anchor, Back;
    if cands != [] && gridLen > 0 {
      var (i, slot) := Anchor(cands, p, Tolerance(p), hint);
      if slot < gridLen {
        WalkUsesUp(cands, i + 1, p, gridLen - slot - 1, cands[i]);
        var es := Entries(cands, p, gridLen, hint);
        var w := Walk(cands, i + 1, p, Tolerance(p), gridLen - slot - 1, cands[i]);
        assert w != [] ==> es[|es| - 1] == w[|w| - 1];
        assert w == [] ==> es[|es| - 1] == Found(cands[i]);
        assert Grid(cands, p, gridLen, hint)[|es| - 1] == es[|es| - 1].Value();
      }
    }
  }

  /** Whatever the last candidate is, noise included, the prediction is less than three
      quarters of a period past the next line and its grid error. */
  lemma PredictionOvershoot(s: Signal, cands: seq<int>, hint: real, gridLen: nat)
    requires s.Admissible(cands, hint) && cands != []
    requires 0 < |Grid(cands, s.p, gridLen, Some(hint))| < gridLen
    ensures var n := |Grid(cands, s.p, gridLen, Some(hint))|;
      NextSync(cands, s.p, gridLen, hint, n) as real < s.Line(n) + GridError(s) + 0.75 * s.p + 1.0
  {
    hide Signal.Admissible, Grid, Signal.Line;
    Parts(s, cands, hint);
    var n := |Grid(cands, s.p, gridLen, Some(hint))|;
    GridUsesUp(cands, s.p, gridLen, Some(hint));
    NumberingNeverSlips(s, cands, hint, gridLen, n - 1);
    NextLine(s, n - 1);
  }

  /** A noise candidate at the end puts the prediction at least a quarter period past
      the next line. */
  lemma NoiseOvershoots(s: Signal, cands: seq<int>, hint: real, gridLen: nat)
    requires s.Admissible(cands, hint) && cands != [] && s.p >= 12.0 && s.Spurious(cands[|cands| - 1])
    requires 0 < |Grid(cands, s.p, gridLen, Some(hint))| < gridLen
    ensures var n := |Grid(cands, s.p, gridLen, Some(hint))|;
      NextSync(cands, s.p, gridLen, hint, n) as real > s.Line(n) + Tolerance(s.p) + s.e + s.m as real / 2.0 - 1.0
  {
    hide Signal.Admissible, Grid, Signal.Line, Signal.Near;
    Parts(s, cands, hint);
    var n := |Grid(cands, s.p, gridLen, Some(hint))|;
    var last := cands[|cands| - 1];
    GridNotPastLast(cands, s.p, gridLen, Some(hint));
    NumberingNeverSlips(s, cands, hint, gridLen, n - 1);
    NextLine(s, n - 1);
    assert Abs(last as real - s.Line(n - 1)) > Tolerance(s.p) + s.e + s.m as real / 2.0;
  }

  /** Exactly when: with the grid used up before the image is complete, the
      prediction stays on the next line if and only if the last candidate is a
      received sync. A noise candidate there makes the decoder trim too far. */
  lemma PredictionSafeIff(s: Signal, cands: seq<int>, hint: real, gridLen: nat)
    requires s.Admissible(cands, hint) && cands != [] && s.p >= 12.0
    requires 0 < |Grid(cands, s.p, gridLen, Some(hint))| < gridLen
    ensures var n := |Grid(cands, s.p, gridLen, Some(hint))|;
      NextSync(cands, s.p, gridLen, hint, n) as real <= s.Line(n) + GridError(s) + 1.0
      <==> !s.Spurious(cands[|cands| - 1])
  {
    hide Signal.Admissible, Grid, Signal.Line, NextSync, Signal.Spurious;
    if s.Spurious(cands[|cands| - 1]) {
      NoiseOvershoots(s, cands, hint, gridLen);
    } else {
      PredictionSafe(s, cands, hint, gridLen, |Grid(cands, s.p, gridLen, Some(hint))|);
    }
  }

  /** Such a signal, at any period of 2h samples: line 0 received exactly, and one noise
      pulse half-way to line 1. */
  lemma NoiseHalfway(h: nat, gridLen: nat)
    requires h >= 2 && gridLen >= 2
    ensures var s, cands := Signal(0.0, 2.0 * h as real, 0.0, 0), [0, h];
      s.Admissible(cands, 0.0) && s.Spurious(h) && Grid(cands, s.p, gridLen, Some(0.0)) == [0]
  {
    hide Grid, Signal.Spurious, Signal.BoundedLoss, Signal.Received;
    var s, cands := Signal(0.0, 2.0 * h as real, 0.0, 0), [0, h];
    HalfwayIsNoise(s, h);
    HalfwayReceived(s, cands);
    NoLossBefore(s, cands);
    HalfwayGrid(h, gridLen);
  }

  lemma HalfwayIsNoise(s: Signal, h: nat)
    requires h >= 2 && s == Signal(0.0, 2.0 * h as real, 0.0, 0)
    ensures s.Spurious(h)
  {
    forall k: nat ensures Abs(h as real - s.Line(k)) > Tolerance(s.p) {
      if k > 0 {
        LineFromOne(s, k);
      }
    }
  }

  lemma HalfwayReceived(s: Signal, cands: seq<int>)
    requires |cands| == 2 && cands[0] == 0 && s.a == 0.0 && s.e == 0.0
    ensures s.Near(cands[0], 0) && s.Received(cands, 0)
  {}

  lemma HalfwayGrid(h: nat, gridLen: nat)
    requires h >= 2 && gridLen >= 2
    ensures Grid([0, h], 2.0 * h as real, gridLen, Some(0.0)) == [0]
  {
    hide Walk, Back;
    HalfwayAnchor(h, 2.0 * h as real);
    SkipsHalfway(h, gridLen - 1);
    var es := Entries([0, h], 2.0 * h as real, gridLen, Some(0.0));
    assert es == [Found(0)];
    assert Values(es)[0] == 0;
  }

  lemma HalfwayAnchor(h: nat, p: real)
    requires h >= 2 && p == 2.0 * h as real
    ensures Anchor([0, h], p, Tolerance(p), Some(0.0)) == (0, 0)
  {
    var cands, tol := [0, h], Tolerance(p);
    HalfQuotient(h, p);
    assert !Meets(GapAndLattice, cands, p, tol, Some(0.0), 0);
    assert !Meets(GapAndLattice, cands, p, tol, Some(0.0), 1);
    assert Meets(LatticeOnly, cands, p, tol, Some(0.0), 0);
  }

  lemma HalfQuotient(h: nat, p: real)
    requires h >= 2 && p == 2.0 * h as real
    ensures Round(h as real / p) == 0 && Round(0.0 / p) == 0
  {
    assert h as real / p == 0.5;
  }

  lemma LineFromOne(s: Signal, k: nat)
    requires k > 0 && s.p > 0.0 && s.a == 0.0
    ensures s.Line(k) >= s.p
  {
    if k > 1 {
      LineFromOne(s, k - 1);
    }
  }

  lemma NoLossBefore(s: Signal, cands: seq<int>)
    requires |cands| == 2 && s.a == 0.0 && s.p > 0.0 && cands[1] as real < s.p
    ensures s.BoundedLoss(cands)
  {
    forall k: nat, n: nat {:trigger s.Received(cands, k), s.Line(n)} | k + s.m < n
      ensures s.Line(n) >= cands[1] as real
    {
      LineFromOne(s, n);
    }
  }

  lemma SkipsHalfway(h: nat, room: nat)
    requires h >= 2
    ensures Walk([0, h], 1, 2.0 * h as real, Tolerance(2.0 * h as real), room, 0) == []
  {
    assert Walk([0, h], 2, 2.0 * h as real, Tolerance(2.0 * h as real), room, 0) == [];
  }

  lemma LineOfLast(s: Signal, cands: seq<int>, hint: real) returns (k: nat)
    requires s.Admissible(cands, hint) && cands != [] && !s.Spurious(cands[|cands| - 1])
    ensures s.Near(cands[|cands| - 1], k)
  {
    hide Signal.Near, Signal.Received, Signal.BoundedLoss, Signal.Spurious;
    k :| s.Near(cands[|cands| - 1], k);
  }

  /** A sync past the image means the grid reaches the image's end. */
  lemma LastBeyond(s: Signal, cands: seq<int>, hint: real, gridLen: nat, k: nat)
    requires s.Admissible(cands, hint) && cands != [] && s.Near(cands[|cands| - 1], k) && k >= gridLen
    ensures |Grid(cands, s.p, gridLen, Some(hint))| >= gridLen
  {
    hide Signal.Admissible, Grid, Signal.Near, Signal.Received;
    assert s.Received(cands, k) by { LastReceived(s, cands, k); }
    GridReaches(s, cands, hint, gridLen, k);
  }

  /** Truncating the image length truncates the grid. */
  lemma GridReaches(s: Signal, cands: seq<int>, hint: real, gridLen: nat, k: nat)
    requires s.Admissible(cands, hint) && s.Received(cands, k) && k >= gridLen
    ensures |Grid(cands, s.p, gridLen, Some(hint))| >= gridLen
  {
    hide Signal.Admissible, Signal.Near, Signal.Received, Anchor, Walk;
    Parts(s, cands, hint);
    NumberingNeverSlips(s, cands, hint, k + 1, k);
    if gridLen > 0 {
      var (i, slot) := Anchor(cands, s.p, Tolerance(s.p), Some(hint));
      if slot < gridLen {
        WalkRoom(cands, i + 1, s.p, Tolerance(s.p), gridLen - slot - 1, k - slot, cands[i]);
      }
    }
  }

  lemma {:induction false} WalkRoom(cands: seq<int>, next: nat, p: real, tol: real, room: nat, more: nat, last: int)
    requires room <= more
    ensures |Walk(cands, next, p, tol, more, last)| >= room ==> |Walk(cands, next, p, tol, room, last)| >= room
    decreases more, |cands| - next
  {
    if room > 0 && next < |cands| {
      var expected := last as real + p;
      var c := cands[next];
      if c as real < expected - tol {
        WalkRoom(cands, next + 1, p, tol, room, more, last);
      } else if Abs(c as real - expected) <= tol {
        WalkRoom(cands, next + 1, p, tol, room - 1, more - 1, c);
      } else {
        WalkRoom(cands, next, p, tol, room - 1, more - 1, Round(expected));
      }
    }
  }

  // ---- in absolute positions, for a buffer starting at `origin` ----

  /** The candidates heard so far come from transmission s, and the decoder, having
      used `used` grid positions, will predict from a grid entry or a received sync. */
  ghost predicate Tracks(s: Signal, heard: seq<int>, hint: real, origin: int, gridLen: nat, used: nat) {
    && s.Admissible(heard, hint) && heard != []
    && (used < gridLen ==>
          used < |Grid(Relative(heard, origin), s.p, gridLen, Some(hint - origin as real))|
          || !s.Spurious(heard[|heard| - 1]))
  }

  lemma UnmovedSpurious(s: Signal, origin: int, c: int)
    requires Moved(s, origin).Spurious(c - origin)
    ensures s.Spurious(c)
  {
    MovedSpurious(Moved(s, origin), -origin, c - origin);
    assert Moved(Moved(s, origin), -origin) == s;
  }

  lemma AheadOfLine(s: Signal, heard: seq<int>, hint: real, origin: int, gridLen: nat, used: nat)
    requires Tracks(s, heard, hint, origin, gridLen, used) && used < gridLen
    ensures origin as real + NextSync(Relative(heard, origin), s.p, gridLen, hint - origin as real, used) as real
            <= s.Line(used) + GridError(s) + 1.0
  {
    hide Signal.Admissible, Signal.Spurious, Signal.Line, NextSync;
    var rel := Relative(heard, origin);
    MovedAdmissible(s, origin, heard, hint);
    if Moved(s, origin).Spurious(rel[|rel| - 1]) {
      UnmovedSpurious(s, origin, heard[|heard| - 1]);
    }
    PredictionSafe(Moved(s, origin), rel, hint - origin as real, gridLen, used);
    MovedLine(s, origin, used);
  }

  lemma EntryOnLine(s: Signal, heard: seq<int>, hint: real, origin: int, gridLen: nat, k: nat)
    requires s.Admissible(heard, hint) && k < gridLen
    requires k < |Grid(Relative(heard, origin), s.p, gridLen, Some(hint - origin as real))|
    ensures var g := Grid(Relative(heard, origin), s.p, gridLen, Some(hint - origin as real));
      Abs((origin + g[k]) as real - s.Line(k)) <= GridError(s)
  {
    hide Signal.Admissible, Signal.Line, Grid;
    MovedAdmissible(s, origin, heard, hint);
    NumberingNeverSlips(Moved(s, origin), Relative(heard, origin), hint - origin as real, gridLen, k);
    MovedLine(s, origin, k);
  }
}
