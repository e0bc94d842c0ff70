/** What the live decoder knows of the sync pulses after any number of searches
    (`_update_syncs` of core/incremental_decoder.py). */
module SyncHarvest {
  const DEDUP_RADIUS := 100

  predicate SamePulse(a: int, b: int) {
    -DEDUP_RADIUS <= a - b <= DEDUP_RADIUS
  }

  /** A newer sighting replaces the first candidate of the same pulse. */
  function Merge(syncs: seq<int>, c: int): (r: seq<int>)
    ensures c in r
    ensures forall s :: s in syncs && !SamePulse(c, s) ==> s in r
    ensures forall s :: s in r ==> s == c || s in syncs
    ensures |syncs| <= |r|
  {
    if syncs == [] then [c]
    else if SamePulse(c, syncs[0]) then [c] + syncs[1..]
    else
      assert syncs == [syncs[0]] + syncs[1..];
      [syncs[0]] + Merge(syncs[1..], c)
  }

  function MergeAll(syncs: seq<int>, cs: seq<int>): seq<int> {
    if cs == [] then syncs else Merge(MergeAll(syncs, cs[..|cs| - 1]), cs[|cs| - 1])
  }

  ghost predicate Sorted(s: seq<int>) {
    forall i, j :: 0 <= i < j < |s| ==> s[i] <= s[j]
  }

  function Insert(x: int, s: seq<int>): (r: seq<int>)
    ensures multiset(r) == multiset(s) + multiset{x}
  {
    if s == [] || x <= s[0] then [x] + s
    else
      assert s == [s[0]] + s[1..];
      [s[0]] + Insert(x, s[1..])
  }

  /** `list.sort()`. */
  function Sort(s: seq<int>): (r: seq<int>)
    ensures multiset(r) == multiset(s)
  {
    if s == [] then []
    else
      assert s == [s[0]] + s[1..];
      Insert(s[0], Sort(s[1..]))
  }

  lemma {:induction false} InsertSorted(x: int, s: seq<int>)
    requires Sorted(s)
    ensures Sorted(Insert(x, s))
  {
    if s != [] && x > s[0] {
      InsertSorted(x, s[1..]);
      var r := Insert(x, s[1..]);
      forall i | 0 <= i < |r| ensures s[0] <= r[i] {
        assert r[i] in multiset(r);
        assert r[i] == x || r[i] in s[1..];
      }
    }
  }

  lemma {:induction false} SortSorted(s: seq<int>)
    ensures Sorted(Sort(s))
  {
    if s != [] {
      SortSorted(s[1..]);
      InsertSorted(s[0], Sort(s[1..]));
    }
  }

  // ---- one pulse, one candidate ----

  /** A sighting of a pulse, at most half the radius off. */
  predicate Sights(c: int, pulse: int) {
    -DEDUP_RADIUS <= 2 * (c - pulse) <= DEDUP_RADIUS
  }

  /** The pulses are far enough apart for their sightings not to be confused. */
  ghost predicate Spaced(pulses: set<int>) {
    forall p, q :: p in pulses && q in pulses && p < q ==> q - p > 2 * DEDUP_RADIUS
  }

  ghost predicate Sighting(c: int, pulses: set<int>) {
    exists p :: p in pulses && Sights(c, p)
  }

  ghost predicate Sightings(cs: seq<int>, pulses: set<int>) {
    forall c :: c in cs ==> Sighting(c, pulses)
  }

  /** No pulse is listed twice. */
  ghost predicate OncePerPulse(cs: seq<int>) {
    forall i, j :: 0 <= i < j < |cs| ==> !SamePulse(cs[i], cs[j])
  }

  /** Sightings lie within the radius of each other exactly when they are of one pulse. */
  lemma SameIsOnePulse(a: int, b: int, pulses: set<int>)
    requires Spaced(pulses) && Sighting(a, pulses) && Sighting(b, pulses)
    ensures SamePulse(a, b) <==> exists p :: p in pulses && Sights(a, p) && Sights(b, p)
  {
    hide SamePulse, Sights, Spaced;
    var p :| p in pulses && Sights(a, p);
    var q :| q in pulses && Sights(b, q);
    if SamePulse(a, b) {
      OnePulse(a, p, b, q, pulses);
    }
    forall r | r in pulses && Sights(a, r) && Sights(b, r) ensures SamePulse(a, b) {
      NearOnePulse(a, b, r);
    }
  }

  lemma SameIsTransitive(a: int, b: int, c: int, pulses: set<int>)
    requires Spaced(pulses) && Sighting(a, pulses) && Sighting(b, pulses) && Sighting(c, pulses)
    requires SamePulse(a, b) && SamePulse(b, c)
    ensures SamePulse(a, c) && SamePulse(c, a)
  {
    hide Sights, Spaced;
    var p :| p in pulses && Sights(a, p);
    var q :| q in pulses && Sights(b, q);
    var r :| r in pulses && Sights(c, r);
    OnePulse(a, p, b, q, pulses);
    OnePulse(b, q, c, r, pulses);
    NearOnePulse(a, c, p);
  }

  lemma OnePulse(a: int, p: int, b: int, q: int, pulses: set<int>)
    requires Spaced(pulses) && p in pulses && q in pulses && Sights(a, p) && Sights(b, q) && SamePulse(a, b)
    ensures p == q
  {}

  lemma NearOnePulse(a: int, b: int, p: int)
    requires Sights(a, p) && Sights(b, p)
    ensures SamePulse(a, b) && SamePulse(b, a)
  {}

  lemma SamePulseIsSymmetric(a: int, b: int)
    ensures SamePulse(a, b) == SamePulse(b, a) && SamePulse(a, a)
  {}

  lemma {:induction false} MergeReplaces(syncs: seq<int>, c: int, pulses: set<int>)
    requires Spaced(pulses) && Sightings(syncs, pulses) && Sighting(c, pulses) && OncePerPulse(syncs)
    ensures var r := Merge(syncs, c);
      && (forall x :: x in r <==> x == c || (x in syncs && !SamePulse(c, x)))
      && OncePerPulse(r) && Sightings(r, pulses)
  {
    hide SamePulse, Sighting, Spaced;
    if syncs == [] {
      return;
    }
    var h, t := syncs[0], syncs[1..];
    assert syncs == [h] + t && h in syncs;
    assert OncePerPulse(t) by {
      assert forall i :: 0 <= i < |t| ==> t[i] == syncs[i + 1];
    }
    forall x | x in t ensures !SamePulse(h, x) {
      var i :| 0 <= i < |t| && t[i] == x;
      assert syncs[i + 1] == x;
    }
    if SamePulse(c, h) {
      forall x | x in t ensures !SamePulse(c, x) {
        if SamePulse(c, x) {
          SamePulseIsSymmetric(c, h);
          SameIsTransitive(h, c, x, pulses);
        }
      }
      OneMore(c, t);
    } else {
      MergeReplaces(t, c, pulses);
      SamePulseIsSymmetric(c, h);
      OneMore(h, Merge(t, c));
    }
  }

  lemma OneMore(h: int, t: seq<int>)
    requires OncePerPulse(t) && forall x :: x in t ==> !SamePulse(h, x)
    ensures OncePerPulse([h] + t)
  {
    hide SamePulse;
    var s := [h] + t;
    assert forall i :: 1 <= i < |s| ==> s[i] == t[i - 1] && s[i] in t;
  }

  /** One of the sightings is of the pulse of x. */
  ghost predicate SeenIn(x: int, cs: seq<int>) {
    exists c :: c in cs && SamePulse(c, x)
  }

  /** Merging a search replaces what it found again, adds what is new, and keeps the rest. */
  lemma {:induction false} MergeAllReplaces(syncs: seq<int>, cs: seq<int>, pulses: set<int>)
    requires Spaced(pulses) && Sightings(syncs, pulses) && Sightings(cs, pulses)
    requires OncePerPulse(syncs) && OncePerPulse(cs)
    ensures var r := MergeAll(syncs, cs);
      && (forall x :: x in r <==> x in cs || (x in syncs && !SeenIn(x, cs)))
      && OncePerPulse(r) && Sightings(r, pulses)
  {
    hide SamePulse, Sighting, Spaced, OncePerPulse, SeenIn, Merge;
    if cs == [] {
      NoneSeen();
    } else {
      var front, c := cs[..|cs| - 1], cs[|cs| - 1];
      assert cs == front + [c] && c in cs;
      OneFewer(front, c);
      MergeAllReplaces(syncs, front, pulses);
      var m := MergeAll(syncs, front);
      MergeReplaces(m, c, pulses);
      forall x ensures x in Merge(m, c) <==> x in cs || (x in syncs && !SeenIn(x, cs)) {
        SeenInMore(x, front, c);
        SamePulseIsSymmetric(x, c);
      }
    }
  }

  lemma NoneSeen()
    ensures forall x :: !SeenIn(x, [])
  {}

  lemma OneFewer(front: seq<int>, c: int)
    requires OncePerPulse(front + [c])
    ensures OncePerPulse(front) && forall x :: x in front ==> !SamePulse(c, x)
  {
    hide SamePulse;
    var cs := front + [c];
    assert forall i :: 0 <= i < |front| ==> cs[i] == front[i];
    forall x | x in front ensures !SamePulse(c, x) {
      var i :| 0 <= i < |front| && front[i] == x;
      assert !SamePulse(cs[i], cs[|front|]);
      SamePulseIsSymmetric(c, x);
    }
  }

  lemma SeenInMore(x: int, front: seq<int>, c: int)
    ensures SeenIn(x, front + [c]) <==> SeenIn(x, front) || SamePulse(c, x)
  {
    hide SamePulse;
    if SeenIn(x, front) {
      var d :| d in front && SamePulse(d, x);
      assert d in front + [c];
    }
    if SamePulse(c, x) {
      assert c in front + [c];
    }
  }

  /** The sorted list after one search: every sighting of it, and what it did not see. */
  lemma SearchedMeans(syncs: seq<int>, cs: seq<int>, pulses: set<int>)
    requires Spaced(pulses) && Sightings(syncs, pulses) && OncePerPulse(syncs)
    requires Sightings(cs, pulses) && OncePerPulse(cs)
    ensures var r := Sort(MergeAll(syncs, cs));
      && Sorted(r) && OncePerPulse(r) && Sightings(r, pulses)
      && (forall x :: x in cs ==> x in r)
      && (forall x :: x in syncs && !SeenIn(x, cs) ==> x in r)
      && (forall x :: x in r ==> x in cs || (x in syncs && !SeenIn(x, cs)))
  {
    hide SamePulse, Sighting, Sightings, OncePerPulse, Spaced, Sort, MergeAll, Sorted, SeenIn;
    MergeAllReplaces(syncs, cs, pulses);
    SortSorted(MergeAll(syncs, cs));
    Reordered(MergeAll(syncs, cs), Sort(MergeAll(syncs, cs)), pulses);
  }

  // ---- any number of searches ----

  /** The candidates after all searches, each given by the pulses it found. */
  function Harvest(searches: seq<seq<int>>): seq<int> {
    if searches == [] then []
    else Sort(MergeAll(Harvest(searches[..|searches| - 1]), searches[|searches| - 1]))
  }

  /** The last search that saw the pulse of x saw it at x. */
  ghost predicate NewestSighting(x: int, searches: seq<seq<int>>) {
    exists n :: 0 <= n < |searches| && x in searches[n] && forall m :: n < m < |searches| ==> !SeenIn(x, searches[m])
  }

  lemma NewestStep(x: int, front: seq<seq<int>>, cs: seq<int>)
    ensures NewestSighting(x, front + [cs]) <==> x in cs || (NewestSighting(x, front) && !SeenIn(x, cs))
  {
    hide SeenIn;
    var all := front + [cs];
    assert forall n :: 0 <= n < |front| ==> all[n] == front[n];
    assert all[|front|] == cs;
    if x in cs {
      assert x in all[|front|];
    } else if NewestSighting(x, front) && !SeenIn(x, cs) {
      var n :| 0 <= n < |front| && x in front[n] && forall m :: n < m < |front| ==> !SeenIn(x, front[m]);
      assert x in all[n] && forall m :: n < m < |all| ==> !SeenIn(x, all[m]);
    }
    if x !in cs && NewestSighting(x, all) {
      var n :| 0 <= n < |all| && x in all[n] && forall m :: n < m < |all| ==> !SeenIn(x, all[m]);
      assert n < |front| && x in front[n];
      assert !SeenIn(x, all[|front|]);
      assert forall m :: n < m < |front| ==> !SeenIn(x, front[m]) by {
        assert forall m :: n < m < |front| ==> front[m] == all[m];
      }
    }
  }

  /** Main result. However the searches overlap, the candidates are in order and hold every
      pulse that any of them saw exactly once, where the last search that saw it put it. */
  lemma {:induction false} HarvestIsNewest(searches: seq<seq<int>>, pulses: set<int>)
    requires Spaced(pulses)
    requires forall n :: 0 <= n < |searches| ==> Sightings(searches[n], pulses) && OncePerPulse(searches[n])
    ensures var h := Harvest(searches);
      && Sorted(h) && OncePerPulse(h) && Sightings(h, pulses) && forall x :: x in h <==> NewestSighting(x, searches)
  {
    hide SamePulse, Sighting, Spaced, Sort, Sightings, OncePerPulse, NewestSighting, SeenIn, MergeAll, Sorted;
    if searches == [] {
      NothingSeen(pulses);
      return;
    }
    var front, cs := searches[..|searches| - 1], searches[|searches| - 1];
    assert searches == front + [cs];
    HarvestIsNewest(front, pulses);
    MergeAllReplaces(Harvest(front), cs, pulses);
    var merged := MergeAll(Harvest(front), cs);
    SortSorted(merged);
    Reordered(merged, Sort(merged), pulses);
    forall x ensures x in Harvest(searches) <==> NewestSighting(x, searches) {
      NewestStep(x, front, cs);
    }
  }

  lemma NothingSeen(pulses: set<int>)
    ensures Sorted([]) && OncePerPulse([]) && Sightings([], pulses) && forall x :: !NewestSighting(x, [])
  {}

  /** Nothing that was said depends on the order. */
  lemma Reordered(s: seq<int>, r: seq<int>, pulses: set<int>)
    requires multiset(s) == multiset(r) && OncePerPulse(s) && Sightings(s, pulses)
    ensures OncePerPulse(r) && Sightings(r, pulses) && forall x :: x in s <==> x in r
  {
    hide SamePulse, Sighting;
    forall x ensures x in s <==> x in r {
      assert x in multiset(s) <==> x in multiset(r);
    }
    forall i, j | 0 <= i < j < |r| ensures !SamePulse(r[i], r[j]) {
      OnlyOnce(s, r, i, j);
    }
  }

  lemma OnlyOnce(s: seq<int>, r: seq<int>, i: nat, j: nat)
    requires multiset(s) == multiset(r) && OncePerPulse(s) && i < j < |r|
    ensures !SamePulse(r[i], r[j])
  {
    SamePulseIsSymmetric(r[i], r[j]);
    SamePulseIsSymmetric(r[i], r[i]);
    hide SamePulse;
    assert r[i] in multiset(s) && r[j] in multiset(s);
    if r[i] == r[j] {
      assert r == r[..j] + [r[j]] + r[j + 1..];
      assert r[..j][i] == r[j];
      assert multiset(r)[r[j]] >= 2;
      Twice(s, r[j]);
    }
    var a :| 0 <= a < |s| && s[a] == r[i];
    var b :| 0 <= b < |s| && s[b] == r[j];
    SamePulseIsSymmetric(s[a], s[b]);
  }

  lemma Twice(s: seq<int>, x: int)
    requires OncePerPulse(s)
    ensures multiset(s)[x] <= 1
  {
    if x in s {
      var k :| 0 <= k < |s| && s[k] == x;
      assert s == s[..k] + [x] + s[k + 1..];
      assert x !in s[..k] && x !in s[k + 1..] by {
        SamePulseIsSymmetric(x, x);
      }
    }
  }
}
