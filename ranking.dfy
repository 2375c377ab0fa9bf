/**
 * The five nearest offices: every cleaned row gets a `distance_km` column,
 * the rows are sorted by it in ascending order and the first five are kept.
 *
 * The geodesic distance is the parameter `dist`, about which nothing is
 * assumed. The order among rows at equal distance is left open: the sort is
 * not a stable one.
 */
module Ranking {
  import opened Frames
  import opened Offices

  /** How many offices are listed. */
  const TopK := 5

  /** A row of the dataset with its `distance_km` column. */
  datatype Ranked = Ranked(office: Office, distanceKm: real)

  /** The dataset with the `distance_km` column filled in (lines 90-93). */
  function WithDistance(df: seq<Office>, ref: Coord, dist: (Coord, Coord) -> real): (rows: seq<Ranked>)
    ensures |rows| == |df|
    ensures forall k :: 0 <= k < |df| ==>
              rows[k].office == df[k] && rows[k].distanceKm == dist(ref, Position(df[k]))
  {
    seq(|df|, k requires 0 <= k < |df| => Ranked(df[k], dist(ref, Position(df[k]))))
  }

  predicate SortedByDistance(s: seq<Ranked>) {
    forall i, j :: 0 <= i < j < |s| ==> s[i].distanceKm <= s[j].distanceKm
  }

  function Min(a: int, b: int): int {
    if a < b then a else b
  }

  /**
   * What `sort_values('distance_km').head(5)` may return: the right number of
   * rows of the annotated dataset, no row twice, in ascending order of
   * distance, and no row left out nearer than the last one listed.
   */
  ghost predicate IsNearest(nearest: seq<Ranked>, df: seq<Office>, ref: Coord, dist: (Coord, Coord) -> real): (b: bool)
    ensures b ==> |nearest| <= TopK && |nearest| <= |df|
  {
    var rows := WithDistance(df, ref, dist);
    && |nearest| == Min(TopK, |df|)
    && SortedByDistance(nearest)
    && multiset(nearest) <= multiset(rows)
    && forall r :: r in multiset(rows) - multiset(nearest) ==>
         nearest[|nearest| - 1].distanceKm <= r.distanceKm
  }

  /** Places `x` in front of the first row that is not nearer than it. */
  function Insert(x: Ranked, s: seq<Ranked>): (r: seq<Ranked>)
    requires SortedByDistance(s)
    ensures SortedByDistance(r)
    ensures multiset(r) == multiset(s) + multiset{x}
  {
    if s == [] then [x]
    else if x.distanceKm <= s[0].distanceKm then [x] + s
    else
      var t := Insert(x, s[1..]);
      InsertBehindHead(x, s, t);
      [s[0]] + t
  }

  /** Keeping the head of `s` in front of `x` inserted into the rest of `s` stays sorted. */
  lemma InsertBehindHead(x: Ranked, s: seq<Ranked>, t: seq<Ranked>)
    requires SortedByDistance(s) && s != [] && s[0].distanceKm < x.distanceKm
    requires SortedByDistance(t) && multiset(t) == multiset(s[1..]) + multiset{x}
    ensures SortedByDistance([s[0]] + t)
    ensures multiset([s[0]] + t) == multiset(s) + multiset{x}
  {
    assert s == [s[0]] + s[1..];
    forall j | 0 <= j < |t| ensures s[0].distanceKm <= t[j].distanceKm {
      assert t[j] in multiset(t);
      if t[j] != x {
        assert t[j] in multiset(s[1..]);
        var i :| 0 <= i < |s[1..]| && s[1..][i] == t[j];
        assert t[j] == s[i + 1];
      }
    }
    var r := [s[0]] + t;
    assert forall j :: 0 < j < |r| ==> r[j] == t[j - 1];
  }

  /** An ascending sort by `distance_km`; among equal distances any order would do. */
  function SortByDistance(s: seq<Ranked>): (r: seq<Ranked>)
    ensures SortedByDistance(r)
    ensures multiset(r) == multiset(s)
  {
    if s == [] then []
    else
      assert s == [s[0]] + s[1..];
      Insert(s[0], SortByDistance(s[1..]))
  }

  /** Every row of a sorted sequence beyond its first `m` is at least as far as row `m - 1`. */
  lemma SortedTail(s: seq<Ranked>, m: nat)
    requires SortedByDistance(s) && 0 < m <= |s|
    ensures forall r :: r in multiset(s) - multiset(s[..m]) ==> s[m - 1].distanceKm <= r.distanceKm
  {
    assert s == s[..m] + s[m..];
    assert multiset(s) == multiset(s[..m]) + multiset(s[m..]);
    forall r | r in multiset(s) - multiset(s[..m]) ensures s[m - 1].distanceKm <= r.distanceKm {
      assert r in multiset(s[m..]);
      var j :| m <= j < |s| && s[j] == r;
    }
  }

  /** Sequences with the same multiset of rows have the same length. */
  lemma SameLength(a: seq<Ranked>, b: seq<Ranked>)
    requires multiset(a) == multiset(b)
    ensures |a| == |b|
  {
    assert |multiset(a)| == |a|;
  }

  /** A prefix's rows are among the rows of the whole sequence. */
  lemma PrefixMultiset(s: seq<Ranked>, m: nat)
    requires m <= |s|
    ensures multiset(s) == multiset(s[..m]) + multiset(s[m..])
  {
    assert s == s[..m] + s[m..];
  }

  /** The first `Min(5, n)` rows of a sorted arrangement of the annotated dataset are a valid answer. */
  lemma SortedPrefixIsNearest(df: seq<Office>, ref: Coord, dist: (Coord, Coord) -> real, sorted: seq<Ranked>)
    requires SortedByDistance(sorted)
    requires multiset(sorted) == multiset(WithDistance(df, ref, dist))
    ensures IsNearest(sorted[..Min(TopK, |sorted|)], df, ref, dist)
  {
    var m := Min(TopK, |sorted|);
    SameLength(sorted, WithDistance(df, ref, dist));
    PrefixMultiset(sorted, m);
    if m > 0 {
      SortedTail(sorted, m);
    }
  }

  /** With at most five offices, every sorted arrangement of the whole annotated dataset is listed. */
  lemma SortedAllIsNearest(df: seq<Office>, ref: Coord, dist: (Coord, Coord) -> real, sorted: seq<Ranked>)
    requires |df| <= TopK && SortedByDistance(sorted)
    requires multiset(sorted) == multiset(WithDistance(df, ref, dist))
    ensures IsNearest(sorted, df, ref, dist)
  {
    SortedPrefixIsNearest(df, ref, dist, sorted);
    assert |sorted| == |WithDistance(df, ref, dist)| by {
      assert |multiset(sorted)| == |sorted|;
    }
    assert sorted[..Min(TopK, |sorted|)] == sorted;
  }

  /** Lines 88-95: the distance column, the sort and `head(5)`. */
  method Nearest(df: seq<Office>, ref: Coord, dist: (Coord, Coord) -> real) returns (nearest: seq<Ranked>)
    ensures IsNearest(nearest, df, ref, dist)
  {
    var rows: seq<Ranked> := [];
    var i := 0;
    while i < |df|
      invariant 0 <= i <= |df|
      invariant |rows| == i
      invariant forall k :: 0 <= k < i ==> rows[k] == Ranked(df[k], dist(ref, Position(df[k])))
    {
      rows := rows + [Ranked(df[i], dist(ref, Position(df[i])))];
      i := i + 1;
    }
    assert rows == WithDistance(df, ref, dist);
    var sorted := SortByDistance(rows);
    SortedPrefixIsNearest(df, ref, dist, sorted);
    nearest := sorted[..Min(TopK, |sorted|)];
  }

  /** Each listed distance is the distance from the reference point to that office. */
  lemma NearestDistances(nearest: seq<Ranked>, df: seq<Office>, ref: Coord, dist: (Coord, Coord) -> real)
    requires IsNearest(nearest, df, ref, dist)
    ensures forall r :: r in nearest ==> r.office in df && r.distanceKm == dist(ref, Position(r.office))
  {
  }

  /** The mask `distance_km <= t`. */
  function WithinDistance(t: real): Ranked -> bool {
    (r: Ranked) => r.distanceKm <= t
  }

  /** A sorted sequence has at least k + 1 rows within the distance of its row k. */
  lemma CountWithinAtLeast(a: seq<Ranked>, k: nat)
    requires SortedByDistance(a) && k < |a|
    ensures |Filter(a, WithinDistance(a[k].distanceKm))| >= k + 1
  {
    var near := WithinDistance(a[k].distanceKm);
    assert a == a[..k + 1] + a[k + 1..];
    FilterAppend(a[..k + 1], a[k + 1..], near);
    FilterAll(a[..k + 1], near);
  }

  /** A sorted sequence whose row k is farther than t has at most k rows within t. */
  lemma CountWithinAtMost(b: seq<Ranked>, k: nat, t: real)
    requires SortedByDistance(b) && k < |b| && t < b[k].distanceKm
    ensures |Filter(b, WithinDistance(t))| <= k
  {
    var near := WithinDistance(t);
    assert b == b[..k] + b[k..];
    FilterAppend(b[..k], b[k..], near);
    FilterNone(b[k..], near);
  }

  /** When every row `b` leaves out of `rows` is farther than t, `b` holds all rows within t. */
  lemma CountWithinCovered(b: seq<Ranked>, rows: seq<Ranked>, t: real)
    requires multiset(b) <= multiset(rows)
    requires forall r :: r in multiset(rows) - multiset(b) ==> t < r.distanceKm
    ensures |Filter(rows, WithinDistance(t))| <= |Filter(b, WithinDistance(t))|
  {
    var near := WithinDistance(t);
    var o := MultisetComplement(b, rows);
    forall j | 0 <= j < |o| ensures !near(o[j]) {
      assert o[j] in multiset(rows) - multiset(b);
    }
    FilterNone(o, near);
    FilterAppend(b, o, near);
    FilterCountMonotone(rows, b + o, near);
  }

  /** Row `k` of one valid answer is never farther than row `k` of another. */
  lemma KthNotFarther(a: seq<Ranked>, b: seq<Ranked>, df: seq<Office>, ref: Coord,
                      dist: (Coord, Coord) -> real, k: nat)
    requires IsNearest(a, df, ref, dist) && IsNearest(b, df, ref, dist)
    requires k < |a|
    ensures b[k].distanceKm <= a[k].distanceKm
  {
    var rows := WithDistance(df, ref, dist);
    var t := a[k].distanceKm;
    if t < b[k].distanceKm {
      var last := b[|b| - 1].distanceKm;
      assert b[k].distanceKm <= last;
      assert forall r :: r in multiset(rows) - multiset(b) ==> last <= r.distanceKm;
      CountWithinAtLeast(a, k);
      FilterCountMonotone(a, rows, WithinDistance(t));
      CountWithinAtMost(b, k, t);
      CountWithinCovered(b, rows, t);
      assert false;
    }
  }

  /**
   * The answer is determined up to the order of rows at equal distance: any
   * two valid answers list the same distances in the same order.
   */
  lemma NearestDistancesDetermined(a: seq<Ranked>, b: seq<Ranked>, df: seq<Office>, ref: Coord,
                                   dist: (Coord, Coord) -> real)
    requires IsNearest(a, df, ref, dist) && IsNearest(b, df, ref, dist)
    ensures |a| == |b|
    ensures forall k :: 0 <= k < |a| ==> a[k].distanceKm == b[k].distanceKm
  {
    forall k | 0 <= k < |a| ensures a[k].distanceKm == b[k].distanceKm {
      KthNotFarther(a, b, df, ref, dist, k);
      KthNotFarther(b, a, df, ref, dist, k);
    }
  }
}
