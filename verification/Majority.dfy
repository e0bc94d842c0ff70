/** What the median says when many of the samples agree. */
module Majority {
  import opened LeastSquares

  /** How many of the values pass a test. */
  function Count(s: seq<real>, test: real -> bool): (n: nat)
    ensures n <= |s|
  {
    if s == [] then 0 else (if test(s[0]) then 1 else 0) + Count(s[1..], test)
  }

  function AtMost(x: real): real -> bool {
    y => y <= x
  }

  function AtLeast(x: real): real -> bool {
    y => y >= x
  }

  lemma {:induction false} CountConcat(a: seq<real>, b: seq<real>, test: real -> bool)
    ensures Count(a + b, test) == Count(a, test) + Count(b, test)
  {
    if a == [] {
      assert a + b == b;
    } else {
      CountConcat(a[1..], b, test);
      assert (a + b)[1..] == a[1..] + b;
    }
  }

  lemma {:induction false} CountAll(s: seq<real>, test: real -> bool)
    ensures (forall i :: 0 <= i < |s| ==> test(s[i])) ==> Count(s, test) == |s|
    ensures (forall i :: 0 <= i < |s| ==> !test(s[i])) ==> Count(s, test) == 0
  {
    if s != [] {
      assert forall i :: 0 <= i < |s[1..]| ==> s[1..][i] == s[i + 1];
      CountAll(s[1..], test);
    }
  }

  lemma CountSplit(s: seq<real>, m: nat, test: real -> bool)
    requires m <= |s|
    ensures Count(s, test) == Count(s[..m], test) + Count(s[m..], test)
  {
    hide Count;
    assert s == s[..m] + s[m..];
    CountConcat(s[..m], s[m..], test);
  }

  lemma CountThree(s: seq<real>, a: nat, b: nat, test: real -> bool)
    requires a <= b <= |s|
    ensures Count(s, test) == Count(s[..a], test) + Count(s[a..b], test) + Count(s[b..], test)
  {
    hide Count;
    CountSplit(s, b, test);
    CountSplit(s[..b], a, test);
    Slices(s, a, b);
  }

  lemma Slices(s: seq<real>, a: nat, b: nat)
    requires a <= b <= |s|
    ensures s[..b][..a] == s[..a] && s[..b][a..] == s[a..b]
  {}

  /** A stretch in which every value passes. */
  lemma CountStretch(s: seq<real>, a: nat, b: nat, test: real -> bool)
    requires a <= b <= |s| && forall i :: a <= i < b ==> test(s[i])
    ensures Count(s, test) >= b - a
  {
    hide Count;
    CountThree(s, a, b, test);
    CountAll(s[a..b], test);
  }

  /** Everything outside a stretch passes. */
  lemma CountOutside(s: seq<real>, a: nat, b: nat, test: real -> bool)
    requires a <= b <= |s| && forall i :: 0 <= i < |s| && !(a <= i < b) ==> test(s[i])
    ensures Count(s, test) >= |s| - (b - a)
  {
    hide Count;
    CountThree(s, a, b, test);
    CountAll(s[..a], test);
    CountAll(s[b..], test);
  }

  lemma {:induction false} CountInsert(x: real, s: seq<real>, test: real -> bool)
    ensures Count(Insert(x, s), test) == Count([x] + s, test)
  {
    assert ([x] + s)[1..] == s;
    if s != [] && x > s[0] {
      CountInsert(x, s[1..], test);
      assert ([x] + s[1..])[1..] == s[1..];
      assert Insert(x, s)[1..] == Insert(x, s[1..]);
    }
  }

  lemma {:induction false} CountSort(s: seq<real>, test: real -> bool)
    ensures Count(Sort(s), test) == Count(s, test)
  {
    hide Insert;
    if s != [] {
      CountSort(s[1..], test);
      CountInsert(s[0], Sort(s[1..]), test);
      assert ([s[0]] + Sort(s[1..]))[1..] == Sort(s[1..]);
    }
  }

  /** In ascending order, k small values are in front and k large ones at the end. */
  lemma SmallInFront(r: seq<real>, x: real, k: nat)
    requires Ascending(r) && 0 < k <= Count(r, AtMost(x))
    ensures r[k - 1] <= x
  {
    hide Count;
    var front, back := r[..k - 1], r[k - 1..];
    assert r == front + back;
    CountConcat(front, back, AtMost(x));
    CountAll(back, AtMost(x));
    var i :| 0 <= i < |back| && back[i] <= x;
    assert r[k - 1 + i] == back[i];
  }

  lemma LargeAtEnd(r: seq<real>, x: real, k: nat)
    requires Ascending(r) && 0 < k <= Count(r, AtLeast(x))
    ensures r[|r| - k] >= x
  {
    hide Count;
    var m := |r| - k + 1;
    var front, back := r[..m], r[m..];
    assert r == front + back;
    CountConcat(front, back, AtLeast(x));
    CountAll(front, AtLeast(x));
    var i :| 0 <= i < |front| && front[i] >= x;
    assert r[i] == front[i];
  }

  /** A value that more than half of the samples have is the median. */
  lemma MedianOfMost(s: seq<real>, a: nat, b: nat, v: real)
    requires a <= b <= |s| && 2 * (b - a) > |s| && forall i :: a <= i < b ==> s[i] == v
    ensures Median(s) == v
  {
    hide Sort, Count;
    var r, k := Sort(s), b - a;
    SortSorts(s);
    CountStretch(s, a, b, AtMost(v));
    CountStretch(s, a, b, AtLeast(v));
    CountSort(s, AtMost(v));
    CountSort(s, AtLeast(v));
    SmallInFront(r, v, k);
    LargeAtEnd(r, v, k);
  }

  /** When no more than half of the samples exceed lo, and none exceeds hi, the median is
      at most half-way between. */
  lemma MedianOfHalf(s: seq<real>, a: nat, b: nat, lo: real, hi: real)
    requires s != [] && a <= b <= |s| && 2 * (b - a) <= |s| && lo <= hi
    requires forall i :: 0 <= i < |s| ==> s[i] <= hi && (a <= i < b || s[i] <= lo)
    ensures Median(s) <= (lo + hi) / 2.0
  {
    hide Sort, Count;
    var r, k := Sort(s), |s| - (b - a);
    SortSorts(s);
    CountOutside(s, a, b, AtMost(lo));
    CountOutside(s, 0, 0, AtMost(hi));
    CountSort(s, AtMost(lo));
    CountSort(s, AtMost(hi));
    SmallInFront(r, lo, k);
    SmallInFront(r, hi, |s|);
  }
}
