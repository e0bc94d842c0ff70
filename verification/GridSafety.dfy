/** Line numbering never slips: whatever syncs are missed or invented, entry k
    of the grid stays on scan line k. */
module GridSafety {
  import opened Prelude
  import opened Rounding
  import opened SyncGrid

  /** A transmission: line k's true sync is at a + k * p; received syncs and the
      hint are off by at most e; at most m lines in a row lose their sync. */
  datatype Signal = Signal(a: real, p: real, e: real, m: nat) {
    ghost predicate Valid() {
      p > 0.0 && e >= 0.0 && 2.0 * e + m as real / 2.0 <= Tolerance(p)
    }

    /** a + k * p (see LineIs), built up one period at a time. */
    ghost function Line(k: nat): real {
      if k == 0 then a else Line(k - 1) + p
    }

    /** c is line k's received sync. */
    ghost predicate Near(c: int, k: nat) {
      -e <= c as real - Line(k) <= e
    }

    /** c is a noise candidate: far from every line. */
    ghost predicate Spurious(c: int) {
      forall k: nat :: Abs(c as real - Line(k)) > Tolerance(p) + e + m as real / 2.0
    }

    /** Line k's sync is among the candidates. */
    ghost predicate Received(cands: seq<int>, k: nat) {
      exists i :: 0 <= i < |cands| && Near(cands[i], k)
    }

    ghost predicate Sorted(cands: seq<int>) {
      forall i, j :: 0 <= i < j < |cands| ==> cands[i] <= cands[j]
    }

    /** Once the first sync has been received, no run of m + 1 lines before the
        last candidate is lost. Leading lines may be lost in any number. */
    ghost predicate BoundedLoss(cands: seq<int>) {
      forall k: nat, n: nat {:trigger Received(cands, k), Line(n)} ::
        k + m < n && Received(cands, k) && |cands| > 0 && Line(n) < cands[|cands| - 1] as real
        ==> exists j: nat :: n - m <= j <= n && Received(cands, j)
    }

    ghost predicate Admissible(cands: seq<int>, hint: real) {
      && Valid()
      && Sorted(cands)
      && -e <= hint - a <= e
      && (forall i :: 0 <= i < |cands| ==> Spurious(cands[i]) || exists k: nat :: Near(cands[i], k))
      && (exists k: nat :: Received(cands, k))
      && BoundedLoss(cands)
    }
  }

  // ---- the lattice ----

  lemma {:induction false} LineIs(s: Signal, k: nat)
    ensures s.Line(k) == s.a + k as real * s.p
  {
    if k > 0 {
      LineIs(s, k - 1);
      assert k as real * s.p == (k - 1) as real * s.p + s.p;
    }
  }

  lemma {:induction false} LineApart(s: Signal, j: nat, k: nat)
    requires s.p > 0.0 && j < k
    ensures s.Line(j) + s.p <= s.Line(k)
  {
    if j + 1 < k {
      LineApart(s, j, k - 1);
    }
  }

  lemma SameLine(s: Signal, c: int, j: nat, k: nat)
    requires s.Valid() && s.Near(c, j) && -3.0 * s.p < 4.0 * (c as real - s.Line(k)) < 3.0 * s.p
    ensures j == k
  {
    if j < k {
      LineApart(s, j, k);
    } else if k < j {
      LineApart(s, k, j);
    }
  }

  // ---- the anchor sits on its own line ----

  lemma SlotOfReceived(s: Signal, c: int, k: nat, hint: real)
    requires s.Valid() && s.Near(c, k) && -s.e <= hint - s.a <= s.e
    ensures SlotOf(c, s.p, Tolerance(s.p), Some(hint)) == Some(k)
  {
    LineIs(s, k);
    hide Signal.Line;
    SlotIs(c, s.p, hint, k, s.Line(k) - s.a);
  }

  lemma SlotIs(c: int, p: real, hint: real, k: nat, kp: real)
    requires p > 0.0 && kp == k as real * p && Abs(c as real - hint - kp) <= Tolerance(p)
    ensures SlotOf(c, p, Tolerance(p), Some(hint)) == Some(k)
  {
    RoundQuotient(c as real - hint, p, k, kp);
  }

  lemma SlotOfSpurious(s: Signal, c: int, hint: real)
    requires s.Valid() && s.Spurious(c) && -s.e <= hint - s.a <= s.e
    ensures SlotOf(c, s.p, Tolerance(s.p), Some(hint)) == None
  {
    var off := c as real - hint;
    var k := Round(off / s.p);
    if k >= 0 {
      LineIs(s, k);
      FarFromSlot(s, c, k, off, k as real * s.p);
    }
  }

  lemma FarFromSlot(s: Signal, c: int, k: nat, off: real, kp: real)
    requires s.Valid() && s.Spurious(c) && s.Line(k) == s.a + kp && -s.e <= c as real - off - s.a <= s.e
    ensures Abs(off - kp) > Tolerance(s.p)
  {
    hide Signal.Line;
    assert Abs(c as real - s.Line(k)) > Tolerance(s.p) + s.e + s.m as real / 2.0;
  }

  lemma AnchorOnLine(s: Signal, cands: seq<int>, hint: real)
    requires s.Admissible(cands, hint)
    ensures var (i, slot) := Anchor(cands, s.p, Tolerance(s.p), Some(hint));
            i < |cands| && s.Near(cands[i], slot)
  {
    hide Signal.Spurious, Signal.Near, Signal.BoundedLoss, Signal.Sorted, SlotOf, GapOk;
    var k: nat :| s.Received(cands, k);
    var r :| 0 <= r < |cands| && s.Near(cands[r], k);
    SlotOfReceived(s, cands[r], k, hint);
    assert Meets(LatticeOnly, cands, s.p, Tolerance(s.p), Some(hint), r);
    var (i, slot) := Anchor(cands, s.p, Tolerance(s.p), Some(hint));
    assert OnLattice(cands, s.p, Tolerance(s.p), Some(hint), i);
    if s.Spurious(cands[i]) {
      SlotOfSpurious(s, cands[i], hint);
    }
    var j: nat :| s.Near(cands[i], j);
    SlotOfReceived(s, cands[i], j, hint);
  }

  // ---- the walk keeps the line number ----

  /** Where the walk stands: `last` is line k's position, reached after r lines
      without a sync, and no candidate before `next` belongs to a later line. */
  ghost predicate WalkState(s: Signal, cands: seq<int>, next: nat, last: int, k: nat, r: nat) {
    && next <= |cands|
    && r <= s.m && r <= k
    && -s.e - r as real / 2.0 <= last as real - s.Line(k) <= s.e + r as real / 2.0
    && s.Received(cands, k - r)
    && (forall j: nat :: k - r < j <= k ==> !s.Received(cands, j))
    && (forall i, j: nat :: 0 <= i < next && k < j ==> !s.Near(cands[i], j))
  }

  lemma SkipStep(s: Signal, cands: seq<int>, next: nat, last: int, k: nat, r: nat)
    requires s.Valid() && WalkState(s, cands, next, last, k, r)
    requires next < |cands| && cands[next] as real < last as real + s.p - Tolerance(s.p)
    ensures WalkState(s, cands, next + 1, last, k, r)
  {
    hide Signal.Received;
    forall j: nat | k < j ensures !s.Near(cands[next], j) {
      assert s.Line(k + 1) == s.Line(k) + s.p;
      if k + 1 < j {
        LineApart(s, k + 1, j);
      }
    }
  }

  lemma FoundStep(s: Signal, cands: seq<int>, next: nat, last: int, k: nat, r: nat)
    requires s.Valid() && WalkState(s, cands, next, last, k, r)
    requires next < |cands| && Abs(cands[next] as real - (last as real + s.p)) <= Tolerance(s.p)
    requires s.Spurious(cands[next]) || exists j: nat :: s.Near(cands[next], j)
    ensures s.Near(cands[next], k + 1)
    ensures WalkState(s, cands, next + 1, cands[next], k + 1, 0)
  {
    var c := cands[next];
    assert s.Line(k + 1) == s.Line(k) + s.p;
    assert Abs(c as real - s.Line(k + 1)) <= Tolerance(s.p) + s.e + s.m as real / 2.0;
    var j: nat :| s.Near(c, j);
    SameLine(s, c, j, k + 1);
    forall j': nat | k + 1 < j' ensures !s.Near(c, j') {
      LineApart(s, k + 1, j');
    }
    assert s.Received(cands, k + 1 - 0);
  }

  /** No candidate from index `next` on can belong to a line before a gap. */
  lemma GapMissesLine(s: Signal, cands: seq<int>, next: nat, k: nat)
    requires next < |cands| && s.Sorted(cands) && cands[next] as real > s.Line(k) + s.e
    requires forall i :: 0 <= i < next ==> !s.Near(cands[i], k)
    ensures !s.Received(cands, k)
  {
    hide Signal.Line;
  }

  lemma FillStep(s: Signal, cands: seq<int>, next: nat, last: int, k: nat, r: nat)
    requires s.Valid() && s.Sorted(cands) && s.BoundedLoss(cands) && WalkState(s, cands, next, last, k, r)
    requires next < |cands| && cands[next] as real > last as real + s.p + Tolerance(s.p)
    ensures WalkState(s, cands, next, Round(last as real + s.p), k + 1, r + 1)
  {
    hide Signal.Received, Signal.Near;
    assert s.Line(k + 1) == s.Line(k) + s.p;
    GapMissesLine(s, cands, next, k + 1);
    assert cands[|cands| - 1] >= cands[next];
    assert s.Received(cands, k - r) && s.Line(k + 1) < cands[|cands| - 1] as real;
    assert r < s.m;
  }

  /** An entry that may stand for line k: close to it, and on its sync if that was received. */
  ghost predicate Stands(s: Signal, cands: seq<int>, e: Entry, k: nat) {
    && Abs(e.Value() as real - s.Line(k)) <= s.e + s.m as real / 2.0
    && (s.Received(cands, k) ==> e.Found? && s.Near(e.c, k))
  }

  /** w holds lines k, k + 1, ... in order; a line it does not reach has no sync. */
  ghost predicate OnLines(s: Signal, cands: seq<int>, w: seq<Entry>, k: nat, room: nat) {
    && |w| <= room
    && (forall t: nat :: t < |w| ==> Stands(s, cands, w[t], k + t))
    && (forall j: nat :: k + |w| <= j < k + room ==> !s.Received(cands, j))
  }

  /** Prepending line k to lines k + 1, k + 2, ... */
  lemma Prepend(s: Signal, cands: seq<int>, head: Entry, rest: seq<Entry>, k: nat, room: nat)
    requires room > 0 && OnLines(s, cands, rest, k + 1, room - 1) && Stands(s, cands, head, k)
    ensures OnLines(s, cands, [head] + rest, k, room)
  {
    hide Stands;
    var w := [head] + rest;
    forall t: nat | t < |w| ensures Stands(s, cands, w[t], k + t) {
      if t > 0 {
        assert w[t] == rest[t - 1];
        assert k + 1 + (t - 1) == k + t;
      }
    }
  }

  /** Every line of the walk is close to its true position, and a line whose
      sync was received is placed on it. */
  lemma {:induction false} WalkOnLines(s: Signal, cands: seq<int>, hint: real, next: nat, room: nat, last: int, k: nat,
      r: nat)
    requires s.Admissible(cands, hint) && WalkState(s, cands, next, last, k, r)
    ensures OnLines(s, cands, Walk(cands, next, s.p, Tolerance(s.p), room, last), k + 1, room)
    decreases room, |cands| - next
  {
    hide WalkState, OnLines, Signal.Admissible, Signal.Spurious, Signal.Near, Signal.Line, Signal.Received,
      Signal.BoundedLoss, Signal.Sorted, Signal.Valid;
    Unpack(s, cands, hint, next, last, k, r);
    if room == 0 || next >= |cands| {
      WalkStops(s, cands, next, room, last, k, r);
    } else {
      var expected := last as real + s.p;
      var c := cands[next];
      if c as real < expected - Tolerance(s.p) {
        SkipStep(s, cands, next, last, k, r);
        WalkOnLines(s, cands, hint, next + 1, room, last, k, r);
      } else if Abs(c as real - expected) <= Tolerance(s.p) {
        FoundStep(s, cands, next, last, k, r);
        WalkOnLines(s, cands, hint, next + 1, room - 1, c, k + 1, 0);
        Unpack(s, cands, hint, next + 1, c, k + 1, 0);
        Prepend(s, cands, Found(c), Walk(cands, next + 1, s.p, Tolerance(s.p), room - 1, c), k + 1, room);
      } else {
        FillStep(s, cands, next, last, k, r);
        WalkOnLines(s, cands, hint, next, room - 1, Round(expected), k + 1, r + 1);
        Unpack(s, cands, hint, next, Round(expected), k + 1, r + 1);
        Prepend(s, cands, Filled(expected), Walk(cands, next, s.p, Tolerance(s.p), room - 1, Round(expected)),
                k + 1, room);
      }
    }
  }

  /** What the steps need from the two big predicates. */
  lemma Unpack(s: Signal, cands: seq<int>, hint: real, next: nat, last: int, k: nat, r: nat)
    requires s.Admissible(cands, hint) && WalkState(s, cands, next, last, k, r)
    ensures s.Valid() && s.Sorted(cands) && s.BoundedLoss(cands) && next <= |cands|
    ensures next < |cands| ==> s.Spurious(cands[next]) || exists j: nat :: s.Near(cands[next], j)
    ensures Abs(last as real - s.Line(k)) <= s.e + s.m as real / 2.0
    ensures r > 0 ==> !s.Received(cands, k)
    ensures r == 0 ==> s.Received(cands, k)
  {
    hide Signal.Spurious, Signal.Near, Signal.Line, Signal.Received, Signal.BoundedLoss;
  }

  lemma WalkStops(s: Signal, cands: seq<int>, next: nat, room: nat, last: int, k: nat, r: nat)
    requires WalkState(s, cands, next, last, k, r) && (room == 0 || next >= |cands|)
    ensures OnLines(s, cands, [], k + 1, room)
  {
    hide Signal.Line, Signal.Near;
  }

  /** An entry before the anchor. */
  lemma EntryBefore(s: Signal, cands: seq<int>, hint: real, maxLines: nat, k: nat)
    requires s.Valid() && cands != [] && k < maxLines
    requires k < Anchor(cands, s.p, Tolerance(s.p), Some(hint)).1
    requires var (i, slot) := Anchor(cands, s.p, Tolerance(s.p), Some(hint)); s.Near(cands[i], slot)
    ensures var es := Entries(cands, s.p, maxLines, Some(hint));
      k < |es| && Abs(es[k].Value() as real - s.Line(k)) <= s.e + 0.5
  {
    hide Anchor, Walk, Signal.Near, Signal.Line, Entry.Value;
    var (i, slot) := Anchor(cands, s.p, Tolerance(s.p), Some(hint));
    BackOnLine(s, cands[i], slot, k);
  }

  /** An entry from the anchor on, or a line the grid does not reach. */
  lemma EntryAfter(s: Signal, cands: seq<int>, hint: real, maxLines: nat, k: nat)
    requires s.Admissible(cands, hint) && cands != []
    requires Anchor(cands, s.p, Tolerance(s.p), Some(hint)).1 <= k < maxLines
    requires var (i, slot) := Anchor(cands, s.p, Tolerance(s.p), Some(hint)); s.Near(cands[i], slot)
    ensures var es := Entries(cands, s.p, maxLines, Some(hint));
      if k < |es| then Stands(s, cands, es[k], k) && (es[k].Found? ==> es[k].c in cands)
      else !s.Received(cands, k)
  {
    hide Anchor, Walk, Stands, Signal.Near, Signal.Received, Signal.Admissible;
    Parts(s, cands, hint);
    var (i, slot) := Anchor(cands, s.p, Tolerance(s.p), Some(hint));
    var room := maxLines - slot - 1;
    ForwardOnLines(s, cands, hint, i, slot, room);
    var es := Entries(cands, s.p, maxLines, Some(hint));
    var f := [Found(cands[i])] + Walk(cands, i + 1, s.p, Tolerance(s.p), room, cands[i]);
    assert es == Back(cands[i], slot, s.p, slot) + f;
    if k < |es| {
      assert es[k] == f[k - slot];
      assert slot + (k - slot) == k;
    }
  }

  /** Main result. Whichever lines are missed, the leading ones included, entry k
      is within e + max(1, m)/2 of line k; from the anchor on, a line whose sync
      was received is placed exactly on a received sync of that line. */
  lemma NumberingNeverSlips(s: Signal, cands: seq<int>, hint: real, maxLines: int, k: nat)
    requires s.Admissible(cands, hint) && k < maxLines
    ensures var g := Grid(cands, s.p, maxLines, Some(hint));
      k < |g| ==> Abs(g[k] as real - s.Line(k)) <= s.e + (if s.m == 0 then 1.0 else s.m as real) / 2.0
    ensures var g := Grid(cands, s.p, maxLines, Some(hint));
      s.Received(cands, k) ==>
        k < |g| && (Anchor(cands, s.p, Tolerance(s.p), Some(hint)).1 <= k ==> g[k] in cands && s.Near(g[k], k))
  {
    hide Signal.Admissible, Anchor, Entries, Signal.Near, Signal.Received, Signal.Line;
    Parts(s, cands, hint);
    AnchorOnLine(s, cands, hint);
    var g := Grid(cands, s.p, maxLines, Some(hint));
    var es := Entries(cands, s.p, maxLines, Some(hint));
    assert k < |g| ==> g[k] == es[k].Value();
    if k < Anchor(cands, s.p, Tolerance(s.p), Some(hint)).1 {
      EntryBefore(s, cands, hint, maxLines, k);
    } else {
      EntryAfter(s, cands, hint, maxLines, k);
    }
  }

  lemma Parts(s: Signal, cands: seq<int>, hint: real)
    requires s.Admissible(cands, hint)
    ensures s.Valid() && s.Sorted(cands) && cands != []
  {}

  lemma BackOnLine(s: Signal, c: int, slot: nat, k: nat)
    requires s.Near(c, slot) && k <= slot
    ensures Abs(Filled(BackAt(c, slot - k, s.p)).Value() as real - s.Line(k)) <= s.e + 0.5
  {
    var at := BackAt(c, slot - k, s.p);
    assert at - s.Line(k) == c as real - s.Line(slot) by {
      LineIs(s, slot);
      LineIs(s, k);
      hide Signal.Line;
      Distribute(slot, k, s.p);
    }
    hide Signal.Line, BackAt;
  }

  lemma Distribute(i: int, j: int, p: real)
    ensures (i - j) as real * p == i as real * p - j as real * p
  {}

  lemma ForwardOnLines(s: Signal, cands: seq<int>, hint: real, i: nat, slot: nat, room: nat)
    requires s.Admissible(cands, hint) && i < |cands| && s.Near(cands[i], slot)
    ensures var f := [Found(cands[i])] + Walk(cands, i + 1, s.p, Tolerance(s.p), room, cands[i]);
      OnLines(s, cands, f, slot, room + 1)
      && forall t :: 0 <= t < |f| && f[t].Found? ==> f[t].c in cands
  {
    hide Signal.Admissible, Walk;
    Parts(s, cands, hint);
    var c := cands[i];
    var w := Walk(cands, i + 1, s.p, Tolerance(s.p), room, c);
    StartOfWalk(s, cands, i, slot);
    WalkOnLines(s, cands, hint, i + 1, room, c, slot, 0);
    Prepend(s, cands, Found(c), w, slot, room + 1);
    forall t | 0 <= t < |w| ensures w[t].Found? ==> w[t].c in cands {
      WalkFinds(cands, i + 1, s.p, Tolerance(s.p), room, c, t);
    }
  }

  lemma StartOfWalk(s: Signal, cands: seq<int>, i: nat, slot: nat)
    requires s.Valid() && s.Sorted(cands) && i < |cands| && s.Near(cands[i], slot)
    ensures WalkState(s, cands, i + 1, cands[i], slot, 0)
  {
    forall i', j: nat | 0 <= i' < i + 1 && slot < j ensures !s.Near(cands[i'], j) {
      LineApart(s, slot, j);
      assert cands[i'] <= cands[i];
    }
    assert s.Received(cands, slot - 0);
  }

  /** A found entry is one of the candidates. */
  lemma {:induction false} WalkFinds(cands: seq<int>, next: nat, p: real, tol: real, room: nat, last: int, t: nat)
    requires t < |Walk(cands, next, p, tol, room, last)|
    ensures var e := Walk(cands, next, p, tol, room, last)[t]; e.Found? ==> e.c in cands
    decreases room, |cands| - next
  {
    var expected := last as real + p;
    var c := cands[next];
    if c as real < expected - tol {
      WalkFinds(cands, next + 1, p, tol, room, last, t);
    } else if t > 0 {
      if Abs(c as real - expected) <= tol {
        WalkFinds(cands, next + 1, p, tol, room - 1, c, t - 1);
      } else {
        WalkFinds(cands, next, p, tol, room - 1, Round(expected), t - 1);
      }
    }
  }
}
