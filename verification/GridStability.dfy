/** What happens to the grid as audio arrives and the buffer is trimmed. */
module GridStability {
  import opened Prelude
  import opened Rounding
  import opened SyncGrid

  // ---- neighbouring lines are 3/4 to 5/4 of a period apart ----

  ghost predicate OnePeriod(a: int, b: int, p: real) {
    0.75 * p <= (b - a) as real <= 1.25 * p
  }

  lemma {:induction false} WalkGap(cands: seq<int>, next: nat, p: real, room: nat, last: int, t: nat)
    requires p >= 4.0 && t < |Walk(cands, next, p, Tolerance(p), room, last)|
    ensures var w := Walk(cands, next, p, Tolerance(p), room, last);
      OnePeriod(if t == 0 then last else w[t - 1].Value(), w[t].Value(), p)
    decreases room, |cands| - next
  {
    var expected := last as real + p;
    var c := cands[next];
    if c as real < expected - Tolerance(p) {
      WalkGap(cands, next + 1, p, room, last, t);
    } else if t > 0 {
      if Abs(c as real - expected) <= Tolerance(p) {
        WalkGap(cands, next + 1, p, room - 1, c, t - 1);
      } else {
        WalkGap(cands, next, p, room - 1, Round(expected), t - 1);
      }
    }
  }

  lemma BackStep(anchor: int, n: int, p: real)
    ensures BackAt(anchor, n, p) == BackAt(anchor, n + 1, p) + p
    ensures BackAt(anchor, 0, p) == anchor as real
  {
    assert (n + 1) as real * p == n as real * p + p;
  }

  lemma GapsBounded(cands: seq<int>, p: real, maxLines: int, hint: Option<real>, k: nat)
    requires p >= 4.0
    ensures var g := Grid(cands, p, maxLines, hint);
      k + 1 < |g| ==> OnePeriod(g[k], g[k + 1], p)
  {
    hide Anchor, BackAt, Walk;
    var es := Entries(cands, p, maxLines, hint);
    if k + 1 < |es| {
      var (i, slot) := Anchor(cands, p, Tolerance(p), hint);
      if k < slot {
        BackStep(cands[i], slot - k - 1, p);
      } else {
        var t := k - slot;
        WalkGap(cands, i + 1, p, maxLines - slot - 1, cands[i], t);
        assert es[k + 1] == Walk(cands, i + 1, p, Tolerance(p), maxLines - slot - 1, cands[i])[t];
      }
    }
  }

  // ---- appending candidates ----

  ghost predicate Sorted(cands: seq<int>) {
    forall i, j :: 0 <= i < j < |cands| ==> cands[i] <= cands[j]
  }

  /** Whatever syncs are found later, the lines decoded so far stay put. */
  ghost predicate AppendStable(cands: seq<int>, p: real, maxLines: int, hint: Option<real>) {
    forall more: seq<int> :: Sorted(cands + more)
      ==> Grid(cands, p, maxLines, hint) <= Grid(cands + more, p, maxLines, hint)
  }

  /** The anchor came from the gap-and-lattice rule. */
  predicate RuleFires(cands: seq<int>, p: real, hint: Option<real>)
    requires p > 0.0
  {
    First(GapAndLattice, cands, p, Tolerance(p), hint, 0).Some?
  }

  lemma {:induction false} WalkAppend(cands: seq<int>, more: seq<int>, next: nat, p: real, tol: real, room: nat,
      last: int)
    ensures Walk(cands, next, p, tol, room, last) <= Walk(cands + more, next, p, tol, room, last)
    decreases room, |cands| - next
  {
    if room > 0 && next < |cands| {
      var expected := last as real + p;
      var c := cands[next];
      if c as real < expected - tol {
        WalkAppend(cands, more, next + 1, p, tol, room, last);
      } else if Abs(c as real - expected) <= tol {
        WalkAppend(cands, more, next + 1, p, tol, room - 1, c);
      } else {
        WalkAppend(cands, more, next, p, tol, room - 1, Round(expected));
      }
    }
  }

  lemma RuleAnchorAppend(cands: seq<int>, more: seq<int>, p: real, tol: real, hint: Option<real>)
    requires p > 0.0 && First(GapAndLattice, cands, p, tol, hint, 0).Some?
    ensures Anchor(cands + more, p, tol, hint) == Anchor(cands, p, tol, hint)
  {
    hide SlotOf;
    var i := First(GapAndLattice, cands, p, tol, hint, 0).value;
    SameTest(cands, more, p, tol, hint, i);
    forall j | 0 <= j < i ensures !Meets(GapAndLattice, cands + more, p, tol, hint, j) {
      SameTest(cands, more, p, tol, hint, j);
      assert !Meets(GapAndLattice, cands, p, tol, hint, j);
    }
  }

  lemma SameTest(cands: seq<int>, more: seq<int>, p: real, tol: real, hint: Option<real>, i: nat)
    requires p > 0.0 && i + 1 < |cands|
    ensures Meets(GapAndLattice, cands + more, p, tol, hint, i) == Meets(GapAndLattice, cands, p, tol, hint, i)
  {
    assert (cands + more)[i] == cands[i] && (cands + more)[i + 1] == cands[i + 1];
  }

  /** With a rule anchor, later candidates only extend the grid. */
  lemma AppendExtends(cands: seq<int>, more: seq<int>, p: real, maxLines: int, hint: Option<real>)
    requires p > 0.0 && RuleFires(cands, p, hint)
    ensures Grid(cands, p, maxLines, hint) <= Grid(cands + more, p, maxLines, hint)
  {
    hide Walk, Anchor, Back;
    RuleAnchorAppend(cands, more, p, Tolerance(p), hint);
    if maxLines > 0 {
      var (i, slot) := Anchor(cands, p, Tolerance(p), hint);
      assert (cands + more)[i] == cands[i];
      if slot < maxLines {
        WalkAppend(cands, more, i + 1, p, Tolerance(p), maxLines - slot - 1, cands[i]);
      }
      assert Entries(cands, p, maxLines, hint) <= Entries(cands + more, p, maxLines, hint);
    }
  }

  // A fallback anchor can always be displaced: append a well spaced pair y, z far
  // beyond the last candidate, with y on the lattice but off its centre.

  lemma Quotient(d: real, p: real, n: real)
    requires p > 0.0
    ensures d >= n * p <==> d / p >= n
  {
    var q := d / p;
    assert q * p == d;
    assert d - n * p == (q - n) * p;
    Sign(q - n, p);
  }

  lemma LongGap(d: real, p: real)
    requires p > 0.0 && d >= 5.0 * p
    ensures Round(d / p) >= 5
  {
    Quotient(d, p, 5.0);
    RoundMonotone(5.0, d / p);
  }

  lemma PairBecomesAnchor(cands: seq<int>, p: real, hint: Option<real>, y: int)
    requires p >= 10.0 && cands != [] && !RuleFires(cands, p, hint)
    requires (y - cands[|cands| - 1]) as real >= 5.0 * p
    requires SlotOf(y, p, Tolerance(p), hint).Some?
    ensures Anchor(cands + [y, y + Round(p)], p, Tolerance(p), hint)
      == (|cands|, SlotOf(y, p, Tolerance(p), hint).value)
  {
    hide SlotOf;
    var n := |cands|;
    var more := [y, y + Round(p)];
    var all := cands + more;
    var tol := Tolerance(p);
    assert all[n - 1] == cands[n - 1] && all[n] == y && all[n + 1] == y + Round(p);
    assert RuleHolds(all, p, tol, hint, n) by {
      RoundQuotient(Round(p) as real, p, 1, p);
    }
    assert !GapOk(all, p, tol, n - 1) by {
      LongGap((y - cands[n - 1]) as real, p);
    }
    assert Meets(GapAndLattice, all, p, tol, hint, n);
    forall j | 0 <= j < n ensures !Meets(GapAndLattice, all, p, tol, hint, j) {
      if j < n - 1 {
        SameTest(cands, more, p, tol, hint, j);
        assert !Meets(GapAndLattice, cands, p, tol, hint, j);
      }
    }
  }

  /** A lattice slot lying at least six periods past x. */
  lemma FarSlot(x: real, p: real) returns (s: nat)
    requires p > 0.0
    ensures s >= 1 && s as real * p >= x + 6.0 * p
  {
    var q := (x + 6.0 * p) / p;
    s := if q.Floor + 1 >= 1 then q.Floor + 1 else 1;
    var d := s as real - q;
    assert s as real * p == q * p + d * p;
    assert d * p >= 0.0;
  }

  /** Line 0 of the grid anchored on y at line s > 0 moves by two with y. */
  lemma FirstLineMoves(y: int, s: nat, p: real)
    ensures Round(BackAt(y + 2, s, p)) == Round(BackAt(y, s, p)) + 2
  {
    hide BackAt;
    BackShift(y, s, p, 2);
    RoundShift(BackAt(y, s, p), 2);
  }

  lemma Displace(cands: seq<int>, p: real, maxLines: nat, hint: Option<real>, y: int, g0: int)
    requires p >= 10.0 && cands != [] && Sorted(cands) && maxLines > 0 && !RuleFires(cands, p, hint)
    requires (y - cands[|cands| - 1]) as real >= 5.0 * p
    requires SlotOf(y, p, Tolerance(p), hint).Some?
    requires var s := SlotOf(y, p, Tolerance(p), hint).value; g0 == if s == 0 then y else Round(BackAt(y, s, p))
    ensures var more := [y, y + Round(p)]; Sorted(cands + more) && Grid(cands + more, p, maxLines, hint)[..1] == [g0]
  {
    hide SlotOf, Anchor, Walk, BackAt;
    PairBecomesAnchor(cands, p, hint, y);
    var all := cands + [y, y + Round(p)];
    assert all[|cands|] == y && all[|cands| + 1] == y + Round(p);
    assert forall i :: 0 <= i < |cands| ==> all[i] == cands[i] && cands[i] <= cands[|cands| - 1];
  }

  lemma FallbackUnstable(cands: seq<int>, p: real, maxLines: nat, hint: Option<real>)
    requires p >= 10.0 && cands != [] && Sorted(cands) && maxLines > 0 && !RuleFires(cands, p, hint)
    ensures !AppendStable(cands, p, maxLines, hint)
  {
    hide Anchor, Walk, BackAt, Sorted, First;
    var g := Grid(cands, p, maxLines, hint);
    assert |g| >= 1 by {
      var (i, slot) := Anchor(cands, p, Tolerance(p), hint);
    }
    var y := TwoPlaces(cands, p, hint);
    var s := SlotOf(y, p, Tolerance(p), hint).value;
    FirstLineMoves(y, s, p);
    var y' := if g[0] == (if s == 0 then y else Round(BackAt(y, s, p))) then y + 2 else y;
    var g0 := if s == 0 then y' else Round(BackAt(y', s, p));
    Displace(cands, p, maxLines, hint, y', g0);
    var more := [y', y' + Round(p)];
    assert Grid(cands + more, p, maxLines, hint)[..1][0] != g[0];
    assert !(g <= Grid(cands + more, p, maxLines, hint));
  }

  /** A position far past the candidates where both y and y + 2 are on the lattice. */
  lemma TwoPlaces(cands: seq<int>, p: real, hint: Option<real>) returns (y: int)
    requires p >= 10.0 && cands != []
    ensures (y - cands[|cands| - 1]) as real >= 5.0 * p
    ensures SlotOf(y, p, Tolerance(p), hint).Some?
      && SlotOf(y + 2, p, Tolerance(p), hint) == SlotOf(y, p, Tolerance(p), hint)
  {
    var last := cands[|cands| - 1] as real;
    if hint.None? {
      y := Round(last + 6.0 * p);
    } else {
      var h := hint.value;
      var s := FarSlot(last - h, p);
      var sp := s as real * p;
      y := Round(h + sp);
      OnSlot(y, p, h, s, sp);
      OnSlot(y + 2, p, h, s, sp);
    }
  }

  lemma OnSlot(c: int, p: real, h: real, s: nat, sp: real)
    requires p > 0.0 && sp == s as real * p && Abs(c as real - h - sp) <= Tolerance(p)
    ensures SlotOf(c, p, Tolerance(p), Some(h)) == Some(s)
  {
    RoundQuotient(c as real - h, p, s, sp);
  }

  /** The grid survives every later candidate exactly when its anchor came from
      the gap-and-lattice rule. */
  lemma StableIffRuleAnchor(cands: seq<int>, p: real, maxLines: nat, hint: Option<real>)
    requires p >= 10.0 && cands != [] && Sorted(cands) && maxLines > 0
    ensures AppendStable(cands, p, maxLines, hint) <==> RuleFires(cands, p, hint)
  {
    if RuleFires(cands, p, hint) {
      forall more: seq<int> | Sorted(cands + more)
        ensures Grid(cands, p, maxLines, hint) <= Grid(cands + more, p, maxLines, hint)
      {
        AppendExtends(cands, more, p, maxLines, hint);
      }
    } else {
      FallbackUnstable(cands, p, maxLines, hint);
    }
  }

  /** A lone candidate on line 0 is such a fallback: a later pair six lines on, ten samples
      late but still on the lattice, takes over and moves line 0 by ten samples. */
  lemma LoneCandidateMoves()
    ensures Grid([0], 100.0, 256, Some(0.0)) == [0]
    ensures |Grid([0, 610, 710], 100.0, 256, Some(0.0))| > 0 && Grid([0, 610, 710], 100.0, 256, Some(0.0))[0] == 10
  {
    hide Walk, BackAt, Round;
    Quotients();
    var late, p := [0, 610, 710], 100.0;
    assert !Meets(GapAndLattice, late, p, 25.0, Some(0.0), 0) && Meets(GapAndLattice, late, p, 25.0, Some(0.0), 1);
    assert Anchor(late, p, 25.0, Some(0.0)) == (1, 6);
    assert Meets(LatticeOnly, [0], p, 25.0, Some(0.0), 0);
    assert Anchor([0], p, 25.0, Some(0.0)) == (0, 0);
    NothingToWalk([0], 1, p, 255, 0);
    assert Entries(late, p, 256, Some(0.0))[0] == Filled(BackAt(610, 6, p));
    TenLate();
  }

  lemma Quotients()
    ensures Round(610.0 / 100.0) == 6 && Round(100.0 / 100.0) == 1 && Round(0.0 / 100.0) == 0
  {}

  lemma NothingToWalk(cands: seq<int>, next: nat, p: real, room: nat, last: int)
    requires room == 0 || next >= |cands|
    ensures Walk(cands, next, p, Tolerance(p), room, last) == []
  {}

  lemma TenLate()
    ensures Filled(BackAt(610, 6, 100.0)).Value() == 10
  {}

  // ---- trimming the buffer: every coordinate moves by k ----

  function Shift(vs: seq<int>, k: int): (r: seq<int>)
    ensures |r| == |vs| && forall i :: 0 <= i < |vs| ==> r[i] == vs[i] + k
  {
    seq(|vs|, i requires 0 <= i < |vs| => vs[i] + k)
  }

  function ShiftHint(hint: Option<real>, k: int): Option<real> {
    if hint.None? then None else Some(hint.value + k as real)
  }

  function ShiftEntry(e: Entry, k: int): Entry {
    match e
    case Found(c) => Found(c + k)
    case Filled(at) => Filled(at + k as real)
  }

  /** Rounding this entry commutes with a shift by k. */
  predicate Commutes(e: Entry, k: int) {
    k % 2 == 0 || e.Found? || !IsTie(e.at)
  }

  /** Some predicted line position lies on a half sample. */
  predicate HasTie(es: seq<Entry>) {
    exists i :: 0 <= i < |es| && es[i].Filled? && IsTie(es[i].at)
  }

  lemma ShiftValue(e: Entry, k: int)
    ensures ShiftEntry(e, k).Value() == e.Value() + k <==> Commutes(e, k)
  {
    if e.Filled? {
      RoundShift(e.at, k);
    }
  }

  lemma SlotShift(c: int, p: real, tol: real, hint: Option<real>, k: int)
    requires p > 0.0
    ensures SlotOf(c + k, p, tol, ShiftHint(hint, k)) == SlotOf(c, p, tol, hint)
  {
    if hint.Some? {
      assert (c + k) as real - ShiftHint(hint, k).value == c as real - hint.value;
    }
  }

  lemma GapShift(cands: seq<int>, p: real, tol: real, k: int, i: int)
    requires p > 0.0
    ensures GapOk(Shift(cands, k), p, tol, i) == GapOk(cands, p, tol, i)
  {
    if 0 <= i < |cands| - 1 {
      assert Shift(cands, k)[i + 1] - Shift(cands, k)[i] == cands[i + 1] - cands[i];
    }
  }

  lemma MeetsShift(t: Test, cands: seq<int>, p: real, tol: real, hint: Option<real>, k: int, i: int)
    requires p > 0.0
    ensures Meets(t, Shift(cands, k), p, tol, ShiftHint(hint, k), i) == Meets(t, cands, p, tol, hint, i)
  {
    hide SlotOf, GapOk;
    GapShift(cands, p, tol, k, i);
    if 0 <= i < |cands| {
      SlotShift(cands[i], p, tol, hint, k);
    }
  }

  lemma {:induction false} FirstShift(t: Test, cands: seq<int>, p: real, tol: real, hint: Option<real>, k: int,
      from: nat)
    requires p > 0.0
    ensures First(t, Shift(cands, k), p, tol, ShiftHint(hint, k), from) == First(t, cands, p, tol, hint, from)
    decreases |cands| - from
  {
    if from < |cands| {
      MeetsShift(t, cands, p, tol, hint, k, from);
      FirstShift(t, cands, p, tol, hint, k, from + 1);
    }
  }

  lemma AnchorShift(cands: seq<int>, p: real, tol: real, hint: Option<real>, k: int)
    requires p > 0.0
    ensures Anchor(Shift(cands, k), p, tol, ShiftHint(hint, k)) == Anchor(cands, p, tol, hint)
  {
    hide SlotOf, Meets;
    forall t: Test
      ensures First(t, Shift(cands, k), p, tol, ShiftHint(hint, k), 0) == First(t, cands, p, tol, hint, 0)
    {
      FirstShift(t, cands, p, tol, hint, k, 0);
    }
    forall i | 0 <= i < |cands|
      ensures SlotOf(Shift(cands, k)[i], p, tol, ShiftHint(hint, k)) == SlotOf(cands[i], p, tol, hint)
    {
      SlotShift(cands[i], p, tol, hint, k);
    }
  }

  /** The shifted run follows the original one, up to the first tie if k is odd. */
  ghost predicate Follows(w: seq<Entry>, w': seq<Entry>, k: int) {
    if forall i :: 0 <= i < |w| ==> Commutes(w[i], k)
    then |w'| == |w| && forall i :: 0 <= i < |w| ==> w'[i] == ShiftEntry(w[i], k)
    else exists i :: 0 <= i < |w| && i < |w'| && w'[i].Value() != w[i].Value() + k
  }

  lemma FollowsCons(e: Entry, w: seq<Entry>, e': Entry, w': seq<Entry>, k: int)
    requires e' == ShiftEntry(e, k) && (Commutes(e, k) ==> Follows(w, w', k))
    ensures Follows([e] + w, [e'] + w', k)
  {
    hide Commutes, ShiftEntry, Entry.Value;
    ShiftValue(e, k);
    if Commutes(e, k) {
      if forall i :: 0 <= i < |w| ==> Commutes(w[i], k) {
        AllFollow(e, w, e', w', k);
      } else {
        var i :| 0 <= i < |w| && !Commutes(w[i], k);
        var j :| 0 <= j < |w| && j < |w'| && w'[j].Value() != w[j].Value() + k;
        OneDiffers([e] + w, [e'] + w', k, i + 1, j + 1);
      }
    } else {
      OneDiffers([e] + w, [e'] + w', k, 0, 0);
    }
  }

  lemma AllFollow(e: Entry, w: seq<Entry>, e': Entry, w': seq<Entry>, k: int)
    requires e' == ShiftEntry(e, k) && Commutes(e, k) && |w'| == |w|
    requires forall i :: 0 <= i < |w| ==> Commutes(w[i], k) && w'[i] == ShiftEntry(w[i], k)
    ensures Follows([e] + w, [e'] + w', k)
  {
    hide Commutes, ShiftEntry, Entry.Value;
    var v, v' := [e] + w, [e'] + w';
    forall i | 0 <= i < |v| ensures Commutes(v[i], k) && v'[i] == ShiftEntry(v[i], k) {
      if i > 0 {
        assert v[i] == w[i - 1] && v'[i] == w'[i - 1];
      }
    }
  }

  lemma OneDiffers(v: seq<Entry>, v': seq<Entry>, k: int, i: nat, j: nat)
    requires i < |v| && !Commutes(v[i], k) && j < |v| && j < |v'| && v'[j].Value() != v[j].Value() + k
    ensures Follows(v, v', k)
  {}

  lemma {:induction false} FollowsConcat(a: seq<Entry>, a': seq<Entry>, w: seq<Entry>, w': seq<Entry>, k: int)
    requires |a| == |a'| && forall i :: 0 <= i < |a| ==> a'[i] == ShiftEntry(a[i], k)
    requires Follows(w, w', k)
    ensures Follows(a + w, a' + w', k)
  {
    hide Follows;
    if a == [] {
      assert a + w == w && a' + w' == w';
    } else {
      FollowsConcat(a[1..], a'[1..], w, w', k);
      FollowsCons(a[0], a[1..] + w, a'[0], a'[1..] + w', k);
      assert a + w == [a[0]] + (a[1..] + w) && a' + w' == [a'[0]] + (a'[1..] + w');
    }
  }

  lemma {:induction false} WalkShift(cands: seq<int>, next: nat, p: real, tol: real, room: nat, last: int, k: int)
    ensures Follows(Walk(cands, next, p, tol, room, last), Walk(Shift(cands, k), next, p, tol, room, last + k), k)
    decreases room, |cands| - next
  {
    hide Follows, Commutes, Round, HasTie;
    if room == 0 || next >= |cands| {
      FollowsNil(k);
    } else {
      var expected := last as real + p;
      var c := cands[next];
      assert (last + k) as real + p == expected + k as real;
      if c as real < expected - tol {
        WalkShift(cands, next + 1, p, tol, room, last, k);
      } else if Abs(c as real - expected) <= tol {
        WalkShift(cands, next + 1, p, tol, room - 1, c, k);
        FollowsCons(Found(c), Walk(cands, next + 1, p, tol, room - 1, c),
                    Found(c + k), Walk(Shift(cands, k), next + 1, p, tol, room - 1, c + k), k);
      } else {
        var e := Filled(expected);
        ShiftValue(e, k);
        WalkShift(cands, next, p, tol, room - 1, Round(expected), k);
        FollowsCons(e, Walk(cands, next, p, tol, room - 1, Round(expected)),
                    Filled(expected + k as real),
                    Walk(Shift(cands, k), next, p, tol, room - 1, Round(expected + k as real)), k);
      }
    }
  }

  lemma FollowsNil(k: int)
    ensures Follows([], [], k)
  {}

  lemma BackShift(c: int, n: int, p: real, k: int)
    ensures BackAt(c + k, n, p) == BackAt(c, n, p) + k as real
  {}

  lemma EntriesShift(cands: seq<int>, p: real, maxLines: int, hint: Option<real>, k: int)
    ensures Follows(Entries(cands, p, maxLines, hint), Entries(Shift(cands, k), p, maxLines, ShiftHint(hint, k)), k)
  {
    hide Follows, Walk, Anchor, BackAt;
    FollowsNil(k);
    if cands != [] && p > 0.0 && maxLines > 0 {
      var tol := Tolerance(p);
      AnchorShift(cands, p, tol, hint, k);
      var (i, slot) := Anchor(cands, p, tol, hint);
      var c := cands[i];
      var n := if slot < maxLines then slot else maxLines;
      var b, b' := Back(c, slot, p, n), Back(c + k, slot, p, n);
      forall j | 0 <= j < n ensures b'[j] == ShiftEntry(b[j], k) {
        BackShift(c, slot - j, p, k);
      }
      if slot >= maxLines {
        FollowsConcat(b, b', [], [], k);
        assert b + [] == b && b' + [] == b';
      } else {
        var room := maxLines - slot - 1;
        var w, w' := Walk(cands, i + 1, p, tol, room, c), Walk(Shift(cands, k), i + 1, p, tol, room, c + k);
        WalkShift(cands, i + 1, p, tol, room, c, k);
        FollowsCons(Found(c), w, Found(c + k), w', k);
        FollowsConcat(b, b', [Found(c)] + w, [Found(c + k)] + w', k);
        assert b + ([Found(c)] + w) == b + [Found(c)] + w;
        assert b' + ([Found(c + k)] + w') == b' + [Found(c + k)] + w';
      }
    }
  }

  /** Trimming k samples moves the grid by k exactly when k is even or no
      predicted position needs a tie broken. */
  lemma GridShift(cands: seq<int>, p: real, maxLines: int, hint: Option<real>, k: int)
    ensures Grid(Shift(cands, k), p, maxLines, ShiftHint(hint, k)) == Shift(Grid(cands, p, maxLines, hint), k)
       <==> (k % 2 == 0 || !HasTie(Entries(cands, p, maxLines, hint)))
  {
    hide Entries;
    var es := Entries(cands, p, maxLines, hint);
    var es' := Entries(Shift(cands, k), p, maxLines, ShiftHint(hint, k));
    EntriesShift(cands, p, maxLines, hint, k);
    var g, g' := Values(es), Values(es');
    assert forall i :: 0 <= i < |es| ==> g[i] == es[i].Value();
    assert forall i :: 0 <= i < |es'| ==> g'[i] == es'[i].Value();
    if forall i :: 0 <= i < |es| ==> Commutes(es[i], k) {
      forall i | 0 <= i < |es| ensures g'[i] == g[i] + k {
        ShiftValue(es[i], k);
      }
      assert g' == Shift(g, k);
    } else {
      var i :| 0 <= i < |es| && i < |es'| && es'[i].Value() != es[i].Value() + k;
      assert g'[i] != Shift(g, k)[i];
    }
  }

  /** A line missed half-way between two candidates at a period of 100.5 samples: a trim
      by one sample moves it by two. */
  lemma HalfSampleMovesTwice()
    ensures Grid([0, 201], 100.5, 2, Some(0.0)) == [0, 100]
    ensures Grid(Shift([0, 201], 1), 100.5, 2, Some(1.0)) == [1, 102]
  {
    hide Grid;
    var p := 100.5;
    MissedLine(0, p, 0.0);
    MissedLine(1, p, 1.0);
    assert Shift([0, 201], 1) == [1, 202];
  }

  /** With line 1 missed, the grid of two lines is the anchor and the prediction. */
  lemma MissedLine(a: int, p: real, hint: real)
    requires p == 100.5 && hint == a as real
    ensures Grid([a, a + 201], p, 2, Some(hint)) == [a, Round(a as real + p)]
  {
    hide Walk, BackAt;
    var cands, tol := [a, a + 201], Tolerance(p);
    assert Round(201.0 / p) == 2 && Round(0.0 / p) == 0;
    assert Meets(GapAndLattice, cands, p, tol, Some(hint), 0);
    assert Anchor(cands, p, tol, Some(hint)) == (0, 0);
    OneFilled(cands, p, a);
    assert Entries(cands, p, 2, Some(hint)) == [Found(a), Filled(a as real + p)];
  }

  lemma OneFilled(cands: seq<int>, p: real, a: int)
    requires p == 100.5 && cands == [a, a + 201]
    ensures Walk(cands, 1, p, Tolerance(p), 1, a) == [Filled(a as real + p)]
  {
    NothingToWalk(cands, 1, p, 0, Round(a as real + p));
  }
}
