/** Noisy sync candidates become a numbered grid of line starts
    (`select_anchor` and `walk_sync_grid` of core/sync.py). */
module SyncGrid {
  import opened Prelude
  import opened Rounding

  /** Largest outgoing gap, in line periods, that still makes an anchor. */
  const MAX_ANCHOR_GAP_LINES := 4

  /** Slack on line spacing: 25 % of the period. */
  function Tolerance(p: real): real { p * 0.25 }

  /** One line of the grid: a received sync, or a predicted position that is
      rounded to a sample. */
  datatype Entry = Found(c: int) | Filled(at: real) {
    function Value(): int {
      match this
      case Found(c) => c
      case Filled(at) => Round(at)
    }
  }

  function Values(es: seq<Entry>): (vs: seq<int>)
    ensures |vs| == |es|
  {
    seq(|es|, i requires 0 <= i < |es| => es[i].Value())
  }

  lemma ValuesSnoc(es: seq<Entry>, e: Entry)
    ensures Values(es + [e]) == Values(es) + [e.Value()]
  {}

  // ---- anchor selection ----

  /** The gap after candidate i is 1..4 whole periods, within tolerance. */
  predicate GapOk(cands: seq<int>, p: real, tol: real, i: int)
    requires p > 0.0
  {
    0 <= i < |cands| - 1 &&
    var d := (cands[i + 1] - cands[i]) as real;
    var k := Round(d / p);
    1 <= k <= MAX_ANCHOR_GAP_LINES && Abs(d - k as real * p) <= tol
  }

  /** The line slot of a candidate on the lattice hint + k * p, if it is on it. */
  function SlotOf(c: int, p: real, tol: real, hint: Option<real>): Option<nat>
    requires p > 0.0
  {
    if hint.None? then Some(0) else
    var off := c as real - hint.value;
    var k := Round(off / p);
    if k < 0 || Abs(off - k as real * p) > tol then None else Some(k)
  }

  predicate OnLattice(cands: seq<int>, p: real, tol: real, hint: Option<real>, i: int)
    requires p > 0.0
  {
    0 <= i < |cands| && SlotOf(cands[i], p, tol, hint).Some?
  }

  /** The gap-and-lattice rule. */
  predicate RuleHolds(cands: seq<int>, p: real, tol: real, hint: Option<real>, i: int)
    requires p > 0.0
  {
    GapOk(cands, p, tol, i) && OnLattice(cands, p, tol, hint, i)
  }

  /** A distance is within the tolerance of k whole periods. */
  predicate Fits(d: real, k: int, p: real, tol: real) {
    Abs(d - k as real * p) <= tol
  }

  /** With a tolerance below half a period at most one k fits, and rounding finds it. */
  lemma RoundingFits(d: real, k: int, p: real, tol: real)
    requires p > 0.0 && 2.0 * tol < p && Fits(d, k, p, tol)
    ensures Round(d / p) == k
  {
    RoundQuotient(d, p, k, k as real * p);
  }

  /** One to four whole periods. */
  ghost predicate WholeGap(d: real, p: real, tol: real) {
    exists k :: 1 <= k <= 4 && Fits(d, k, p, tol)
  }

  /** A gap is good exactly when some number of whole periods, one to four, fits it. */
  lemma GapIsWhole(cands: seq<int>, p: real, tol: real, i: int)
    requires p > 0.0 && 2.0 * tol < p && 0 <= i < |cands| - 1
    ensures GapOk(cands, p, tol, i) <==> WholeGap((cands[i + 1] - cands[i]) as real, p, tol)
  {
    hide Round;
    var d := (cands[i + 1] - cands[i]) as real;
    assert GapOk(cands, p, tol, i) ==> Fits(d, Round(d / p), p, tol);
    forall k: int | 1 <= k <= 4 && Fits(d, k, p, tol) ensures GapOk(cands, p, tol, i) {
      RoundingFits(d, k, p, tol);
    }
  }

  /** A candidate's slot is k exactly when it lies on the k-th line behind the hint. */
  lemma SlotIsLine(c: int, p: real, tol: real, hint: real, k: nat)
    requires p > 0.0 && 2.0 * tol < p
    ensures SlotOf(c, p, tol, Some(hint)) == Some(k) <==> Fits(c as real - hint, k, p, tol)
  {
    hide Round;
    var off := c as real - hint;
    if Fits(off, k, p, tol) {
      RoundingFits(off, k, p, tol);
    } else if Round(off / p) == k {
      assert !Fits(off, Round(off / p), p, tol);
    }
  }

  /** The three tests `select_anchor` runs over the candidates, in this order. */
  datatype Test = GapAndLattice | LatticeOnly | GapOnly

  predicate Meets(t: Test, cands: seq<int>, p: real, tol: real, hint: Option<real>, i: int)
    requires p > 0.0
  {
    match t
    case GapAndLattice => RuleHolds(cands, p, tol, hint, i)
    case LatticeOnly => OnLattice(cands, p, tol, hint, i)
    case GapOnly => GapOk(cands, p, tol, i)
  }

  /** The first candidate from index `from` on that meets a test. */
  function First(t: Test, cands: seq<int>, p: real, tol: real, hint: Option<real>, from: nat): (r: Option<nat>)
    requires p > 0.0
    ensures r.Some? ==> from <= r.value < |cands| && Meets(t, cands, p, tol, hint, r.value)
                        && forall j :: from <= j < r.value ==> !Meets(t, cands, p, tol, hint, j)
    ensures r.None? ==> forall j :: from <= j < |cands| ==> !Meets(t, cands, p, tol, hint, j)
    decreases |cands| - from
  {
    if from >= |cands| then None
    else if Meets(t, cands, p, tol, hint, from) then Some(from)
    else First(t, cands, p, tol, hint, from + 1)
  }

  /** The candidate the grid hangs on, and its line number. */
  function Anchor(cands: seq<int>, p: real, tol: real, hint: Option<real>): (r: (nat, nat))
    requires p > 0.0
    ensures cands != [] ==> r.0 < |cands|
  {
    match First(GapAndLattice, cands, p, tol, hint, 0)
    case Some(i) => (i, SlotOf(cands[i], p, tol, hint).value)
    case None =>
      if hint.None? then (0, 0)
      else match First(LatticeOnly, cands, p, tol, hint, 0)
        case Some(i) => (i, SlotOf(cands[i], p, tol, hint).value)
        case None =>
          match First(GapOnly, cands, p, tol, hint, 0)
          case Some(i) => (i, 0)
          case None => (0, 0)
  }

  /** Without a hint the anchor is the first candidate with a good gap, or candidate 0,
      as line 0. */
  lemma NoHintAnchor(cands: seq<int>, p: real, tol: real)
    requires p > 0.0
    ensures var (i, slot) := Anchor(cands, p, tol, None);
      && slot == 0 && (i != 0 ==> GapOk(cands, p, tol, i)) && (forall j :: 0 <= j < i ==> !GapOk(cands, p, tol, j))
      && (!GapOk(cands, p, tol, i) ==> forall j :: 0 <= j < |cands| ==> !GapOk(cands, p, tol, j))
  {
    var (i, slot) := Anchor(cands, p, tol, None);
    forall j | 0 <= j < |cands|
      ensures Meets(GapAndLattice, cands, p, tol, None, j) == GapOk(cands, p, tol, j)
    {}
    assert First(GapAndLattice, cands, p, tol, None, 0).None? ==>
      forall j :: 0 <= j < |cands| ==> !Meets(GapAndLattice, cands, p, tol, None, j);
  }

  /** A hint that no candidate fits is no hint at all. */
  lemma UnfitHintIsIgnored(cands: seq<int>, p: real, tol: real, hint: Option<real>)
    requires p > 0.0 && forall i :: 0 <= i < |cands| ==> !OnLattice(cands, p, tol, hint, i)
    ensures Anchor(cands, p, tol, hint) == Anchor(cands, p, tol, None)
  {
    NoHintAnchor(cands, p, tol);
    assert First(GapAndLattice, cands, p, tol, hint, 0).None?;
    assert First(LatticeOnly, cands, p, tol, hint, 0).None?;
    forall j | 0 <= j < |cands|
      ensures Meets(GapOnly, cands, p, tol, hint, j) == GapOk(cands, p, tol, j)
    {}
  }

  method SelectAnchor(cands: seq<int>, p: real, tol: real, hint: Option<real>) returns (idx: nat, slot: nat)
    requires p > 0.0
    ensures (idx, slot) == Anchor(cands, p, tol, hint)
  {
    var i := 0;
    while i + 1 < |cands|
      invariant 0 <= i <= |cands|
      invariant forall j :: 0 <= j < i ==> !Meets(GapAndLattice, cands, p, tol, hint, j)
    {
      if GapOk(cands, p, tol, i) {
        var s := SlotOf(cands[i], p, tol, hint);
        if s.Some? {
          assert Meets(GapAndLattice, cands, p, tol, hint, i);
          return i, s.value;
        }
      }
      i := i + 1;
    }
    if hint.Some? {
      i := 0;
      while i < |cands|
        invariant 0 <= i <= |cands|
        invariant forall j :: 0 <= j < i ==> !Meets(LatticeOnly, cands, p, tol, hint, j)
      {
        var s := SlotOf(cands[i], p, tol, hint);
        if s.Some? {
          assert Meets(LatticeOnly, cands, p, tol, hint, i);
          return i, s.value;
        }
        i := i + 1;
      }
      i := 0;
      while i + 1 < |cands|
        invariant 0 <= i <= |cands|
        invariant forall j :: 0 <= j < i ==> !Meets(GapOnly, cands, p, tol, hint, j)
      {
        if GapOk(cands, p, tol, i) {
          assert Meets(GapOnly, cands, p, tol, hint, i);
          return i, 0;
        }
        i := i + 1;
      }
    }
    return 0, 0;
  }

  // ---- the walk ----

  function BackAt(anchor: int, lines: int, p: real): real {
    anchor as real - lines as real * p
  }

  /** The first n lines, before the anchor: extrapolated back from it, each on its own. */
  function Back(anchor: int, slot: nat, p: real, n: nat): (es: seq<Entry>)
    ensures |es| == n
    ensures forall j :: 0 <= j < n ==> es[j] == Filled(BackAt(anchor, slot - j, p))
  {
    seq(n, j => Filled(BackAt(anchor, slot - j, p)))
  }

  /** Lines after one at `last`, from candidates[next..], at most `room` of them. */
  function Walk(cands: seq<int>, next: nat, p: real, tol: real, room: nat, last: int): seq<Entry>
    decreases room, |cands| - next
  {
    if room == 0 || next >= |cands| then [] else
    var expected := last as real + p;
    var c := cands[next];
    if c as real < expected - tol then Walk(cands, next + 1, p, tol, room, last)
    else if Abs(c as real - expected) <= tol then [Found(c)] + Walk(cands, next + 1, p, tol, room - 1, c)
    else [Filled(expected)] + Walk(cands, next, p, tol, room - 1, Round(expected))
  }

  function Entries(cands: seq<int>, p: real, maxLines: int, hint: Option<real>): seq<Entry>
  {
    if cands == [] || p <= 0.0 || maxLines <= 0 then [] else
    var (i, slot) := Anchor(cands, p, Tolerance(p), hint);
    if slot >= maxLines then Back(cands[i], slot, p, maxLines)
    else Back(cands[i], slot, p, slot) + [Found(cands[i])]
         + Walk(cands, i + 1, p, Tolerance(p), maxLines - slot - 1, cands[i])
  }

  /** The line grid. */
  function Grid(cands: seq<int>, p: real, maxLines: int, hint: Option<real>): (g: seq<int>)
  {
    Values(Entries(cands, p, maxLines, hint))
  }

  method WalkSyncGrid(cands: seq<int>, p: real, maxLines: int, hint: Option<real>) returns (starts: seq<int>)
    ensures starts == Grid(cands, p, maxLines, hint)
  {
    if cands == [] || p <= 0.0 || maxLines <= 0 {
      return [];
    }
    hide Walk, Values, Back, Anchor, BackAt;
    var tol := Tolerance(p);
    var anchorIdx, slot := SelectAnchor(cands, p, tol, hint);
    var anchor := cands[anchorIdx];
    starts := [];
    ghost var es: seq<Entry> := [];
    var n := if slot < maxLines then slot else maxLines;
    for j := 0 to n
      invariant |es| == j && starts == Values(es)
      invariant forall i :: 0 <= i < j ==> es[i] == Filled(BackAt(anchor, slot - i, p))
    {
      ValuesSnoc(es, Filled(BackAt(anchor, slot - j, p)));
      es := es + [Filled(BackAt(anchor, slot - j, p))];
      starts := starts + [Round(BackAt(anchor, slot - j, p))];
    }
    assert es == Back(anchor, slot, p, n);
    if |starts| >= maxLines {
      return;
    }
    ValuesSnoc(es, Found(anchor));
    starts := starts + [anchor];
    es := es + [Found(anchor)];
    starts, es := WalkForward(cands, anchorIdx + 1, p, tol, maxLines, starts, es);
  }

  /** The two nested loops of the walk; `es0` says how each line start came about. */
  method WalkForward(cands: seq<int>, first: nat, p: real, tol: real, maxLines: int, starts0: seq<int>,
      ghost es0: seq<Entry>)
      returns (starts: seq<int>, ghost es: seq<Entry>)
    requires first <= |cands| && 0 < |starts0| <= maxLines && starts0 == Values(es0)
    ensures es == es0 + Walk(cands, first, p, tol, maxLines - |starts0|, starts0[|starts0| - 1])
    ensures starts == Values(es)
  {
    hide Values;
    starts, es := starts0, es0;
    var next: nat := first;
    ghost var whole := es0 + Walk(cands, first, p, tol, maxLines - |starts0|, starts0[|starts0| - 1]);
    while |starts| < maxLines && next < |cands|
      invariant 0 < |starts| <= maxLines && next <= |cands| && starts == Values(es)
      invariant whole == es + Walk(cands, next, p, tol, maxLines - |starts|, starts[|starts| - 1])
      decreases maxLines - |starts|, |cands| - next
    {
      var expected := starts[|starts| - 1] as real + p;
      while next < |cands| && cands[next] as real < expected - tol
        invariant next <= |cands|
        invariant whole == es + Walk(cands, next, p, tol, maxLines - |starts|, starts[|starts| - 1])
      {
        next := next + 1;
      }
      if next >= |cands| {
        break;
      }
      var c := cands[next];
      if Abs(c as real - expected) <= tol {
        ValuesSnoc(es, Found(c));
        es := es + [Found(c)];
        starts := starts + [c];
        next := next + 1;
      } else {
        ValuesSnoc(es, Filled(expected));
        es := es + [Filled(expected)];
        starts := starts + [Round(expected)];
      }
    }
  }

  // ---- at most one entry per line of the image ----

  lemma {:induction false} WalkLength(cands: seq<int>, next: nat, p: real, tol: real, room: nat, last: int)
    ensures |Walk(cands, next, p, tol, room, last)| <= room
    decreases room, |cands| - next
  {
    if room > 0 && next < |cands| {
      var expected := last as real + p;
      var c := cands[next];
      if c as real < expected - tol {
        WalkLength(cands, next + 1, p, tol, room, last);
      } else if Abs(c as real - expected) <= tol {
        WalkLength(cands, next + 1, p, tol, room - 1, c);
      } else {
        WalkLength(cands, next, p, tol, room - 1, Round(expected));
      }
    }
  }

  lemma GridLength(cands: seq<int>, p: real, maxLines: int, hint: Option<real>)
    ensures |Grid(cands, p, maxLines, hint)| <= Max(0, maxLines)
    ensures Grid(cands, p, maxLines, hint) == [] <==> cands == [] || p <= 0.0 || maxLines <= 0
  {
    hide Walk, Anchor;
    if cands != [] && p > 0.0 && maxLines > 0 {
      var (i, slot) := Anchor(cands, p, Tolerance(p), hint);
      if slot < maxLines {
        WalkLength(cands, i + 1, p, Tolerance(p), maxLines - slot - 1, cands[i]);
      }
    }
  }
}
