/** The optional value used for coerced cells, oracle answers and lookups. */
module Wrappers {
  datatype Option<+T> = None | Some(value: T)
}

/**
 * The table operations the dataset code is built from, stated over sequences
 * of rows: a boolean-mask selection `df[mask]`, a column rewrite applied to
 * every row, and a selection that also rewrites the rows it keeps.
 * Each keeps the rows in their original order.
 */
module Frames {
  import opened Wrappers

  /** `df[mask]`: the rows satisfying `p`, in their original order. */
  function Filter<T(!new)>(s: seq<T>, p: T -> bool): (r: seq<T>)
    ensures |r| <= |s|
    ensures forall x :: x in r <==> x in s && p(x)
  {
    if s == [] then []
    else
      assert s == [s[0]] + s[1..];
      (if p(s[0]) then [s[0]] else []) + Filter(s[1..], p)
  }

  /** A column rewrite: every row replaced by `f` of itself. */
  function MapSeq<T, U>(s: seq<T>, f: T -> U): (r: seq<U>)
    ensures |r| == |s|
    ensures forall k :: 0 <= k < |s| ==> r[k] == f(s[k])
  {
    if s == [] then [] else [f(s[0])] + MapSeq(s[1..], f)
  }

  /** Keeps the rows on which `f` gives a value, replaced by that value. */
  function FilterMap<T, U>(s: seq<T>, f: T -> Option<U>): (r: seq<U>)
    ensures |r| <= |s|
  {
    if s == [] then []
    else (if f(s[0]).Some? then [f(s[0]).value] else []) + FilterMap(s[1..], f)
  }

  /** The positions `i <= j < |s|` at which `f` gives a value, in increasing order. */
  function KeptFrom<T, U>(s: seq<T>, f: T -> Option<U>, i: nat): (idx: seq<nat>)
    requires i <= |s|
    ensures |idx| <= |s| - i
    decreases |s| - i
  {
    if i == |s| then []
    else (if f(s[i]).Some? then [i] else []) + KeptFrom(s, f, i + 1)
  }

  /** `KeptFrom` lists, in increasing order, exactly the positions from `i` on where `f` gives a value. */
  lemma {:induction false} KeptFromPositions<T, U>(s: seq<T>, f: T -> Option<U>, i: nat)
    requires i <= |s|
    ensures forall k :: 0 <= k < |KeptFrom(s, f, i)| ==>
              i <= KeptFrom(s, f, i)[k] < |s| && f(s[KeptFrom(s, f, i)[k]]).Some?
    ensures forall k, l :: 0 <= k < l < |KeptFrom(s, f, i)| ==> KeptFrom(s, f, i)[k] < KeptFrom(s, f, i)[l]
    ensures forall j :: i <= j < |s| && f(s[j]).Some? ==> j in KeptFrom(s, f, i)
    decreases |s| - i
  {
    if i < |s| {
      KeptFromPositions(s, f, i + 1);
      var rest := KeptFrom(s, f, i + 1);
      if f(s[i]).Some? {
        var idx := [i] + rest;
        assert forall k :: 0 < k < |idx| ==> idx[k] == rest[k - 1];
      }
    }
  }

  /** The positions of `s` at which `f` gives a value, in increasing order. */
  function Kept<T, U>(s: seq<T>, f: T -> Option<U>): (idx: seq<nat>)
    ensures forall k :: 0 <= k < |idx| ==> idx[k] < |s| && f(s[idx[k]]).Some?
    ensures forall k, l :: 0 <= k < l < |idx| ==> idx[k] < idx[l]
    ensures forall j :: 0 <= j < |s| && f(s[j]).Some? ==> j in idx
  {
    var idx := KeptFrom(s, f, 0);
    KeptFromPositions(s, f, 0);
    idx
  }

  lemma {:induction false} FilterAppend<T(!new)>(a: seq<T>, b: seq<T>, p: T -> bool)
    ensures Filter(a + b, p) == Filter(a, p) + Filter(b, p)
    decreases |a|
  {
    if a != [] {
      assert (a + b)[1..] == a[1..] + b;
      FilterAppend(a[1..], b, p);
    } else {
      assert a + b == b;
    }
  }

  lemma {:induction false} MapSeqAppend<T, U>(a: seq<T>, b: seq<T>, f: T -> U)
    ensures MapSeq(a + b, f) == MapSeq(a, f) + MapSeq(b, f)
  {
  }

  lemma {:induction false} FilterMapAppend<T, U>(a: seq<T>, b: seq<T>, f: T -> Option<U>)
    ensures FilterMap(a + b, f) == FilterMap(a, f) + FilterMap(b, f)
    decreases |a|
  {
    if a != [] {
      assert (a + b)[1..] == a[1..] + b;
      FilterMapAppend(a[1..], b, f);
    } else {
      assert a + b == b;
    }
  }

  /**
   * What `FilterMap` selects: exactly the values of `f` at the positions
   * where it has one, in increasing order of position.
   */
  lemma {:induction false} FilterMapSelectsFrom<T, U>(s: seq<T>, f: T -> Option<U>, i: nat)
    requires i <= |s|
    ensures |FilterMap(s[i..], f)| == |KeptFrom(s, f, i)|
    ensures forall k :: 0 <= k < |KeptFrom(s, f, i)| ==>
              && KeptFrom(s, f, i)[k] < |s| && f(s[KeptFrom(s, f, i)[k]]).Some?
              && FilterMap(s[i..], f)[k] == f(s[KeptFrom(s, f, i)[k]]).value
    decreases |s| - i
  {
    KeptFromPositions(s, f, i);
    if i < |s| {
      FilterMapSelectsFrom(s, f, i + 1);
      assert s[i..][0] == s[i];
      assert s[i..][1..] == s[i + 1..];
      var rest, idx := FilterMap(s[i + 1..], f), KeptFrom(s, f, i + 1);
      if f(s[i]).Some? {
        var r, kept := FilterMap(s[i..], f), KeptFrom(s, f, i);
        assert r == [f(s[i]).value] + rest;
        assert kept == [i] + idx;
        forall k | 0 < k < |kept| ensures r[k] == f(s[kept[k]]).value {
          assert r[k] == rest[k - 1] && kept[k] == idx[k - 1];
        }
      } else {
        assert FilterMap(s[i..], f) == rest;
        assert KeptFrom(s, f, i) == idx;
      }
    }
  }

  lemma FilterMapSelects<T, U>(s: seq<T>, f: T -> Option<U>)
    ensures |FilterMap(s, f)| == |Kept(s, f)|
    ensures forall k :: 0 <= k < |Kept(s, f)| ==> FilterMap(s, f)[k] == f(s[Kept(s, f)[k]]).value
  {
    FilterMapSelectsFrom(s, f, 0);
    assert s[0..] == s;
  }

  /** A selection keeps every occurrence of a row satisfying `p` and none of the others. */
  lemma {:induction false} FilterCounts<T(!new)>(s: seq<T>, p: T -> bool)
    ensures forall x :: multiset(Filter(s, p))[x] == if p(x) then multiset(s)[x] else 0
  {
    if s != [] {
      FilterCounts(s[1..], p);
      assert s == [s[0]] + s[1..];
      assert multiset(s) == multiset{s[0]} + multiset(s[1..]);
    }
  }

  /** The mask `p` as a selection that keeps a row unchanged or drops it. */
  function Keep<T>(p: T -> bool): T -> Option<T> {
    x => if p(x) then Some(x) else None
  }

  lemma {:induction false} FilterAsFilterMap<T(!new)>(s: seq<T>, p: T -> bool)
    ensures Filter(s, p) == FilterMap(s, Keep(p))
  {
    if s != [] {
      FilterAsFilterMap(s[1..], p);
    }
  }

  /**
   * Where `Filter`'s rows come from: row `k` of the selection is the input
   * row at the k-th position satisfying `p`, in increasing order of position.
   */
  lemma FilterSelects<T(!new)>(s: seq<T>, p: T -> bool)
    ensures |Filter(s, p)| == |Kept(s, Keep(p))|
    ensures forall k :: 0 <= k < |Kept(s, Keep(p))| ==>
              p(s[Kept(s, Keep(p))[k]]) && Filter(s, p)[k] == s[Kept(s, Keep(p))[k]]
  {
    FilterAsFilterMap(s, p);
    FilterMapSelects(s, Keep(p));
  }

  /**
   * `df[mask].iloc[0]`: when some row satisfies `p`, the selection is not empty
   * and its first row is the first such row of `s`.
   */
  lemma {:induction false} FilterFirst<T(!new)>(s: seq<T>, p: T -> bool, i: nat)
    requires i < |s| && p(s[i])
    requires forall j :: 0 <= j < i ==> !p(s[j])
    ensures Filter(s, p) != [] && Filter(s, p)[0] == s[i]
  {
    if i > 0 {
      FilterFirst(s[1..], p, i - 1);
    }
  }

  /** When no row satisfies `p`, the selection is empty. */
  lemma FilterNone<T(!new)>(s: seq<T>, p: T -> bool)
    requires forall j :: 0 <= j < |s| ==> !p(s[j])
    ensures Filter(s, p) == []
  {
  }

  /** When every row satisfies `p`, the selection is the whole input. */
  lemma {:induction false} FilterAll<T(!new)>(s: seq<T>, p: T -> bool)
    requires forall j :: 0 <= j < |s| ==> p(s[j])
    ensures Filter(s, p) == s
  {
    if s != [] {
      FilterAll(s[1..], p);
    }
  }

  /** Removing row `j` removes one occurrence of it from the multiset of rows. */
  lemma MultisetRemoveAt<T>(t: seq<T>, j: nat)
    requires j < |t|
    ensures multiset(t[..j] + t[j + 1..]) == multiset(t) - multiset{t[j]}
  {
    assert t == t[..j] + [t[j]] + t[j + 1..];
  }

  /** Removing row `j` removes it from the selection exactly when it satisfies `p`. */
  lemma FilterRemoveAt<T(!new)>(t: seq<T>, j: nat, p: T -> bool)
    requires j < |t|
    ensures |Filter(t, p)| == |Filter(t[..j] + t[j + 1..], p)| + (if p(t[j]) then 1 else 0)
  {
    assert t == t[..j] + ([t[j]] + t[j + 1..]);
    FilterAppend(t[..j], [t[j]] + t[j + 1..], p);
    FilterAppend([t[j]], t[j + 1..], p);
    FilterAppend(t[..j], t[j + 1..], p);
    assert [t[j]][1..] == [];
  }

  /**
   * How many rows a mask selects depends only on the multiset of rows, and
   * grows with it.
   */
  lemma {:induction false} FilterCountMonotone<T(!new)>(s: seq<T>, t: seq<T>, p: T -> bool)
    requires multiset(s) <= multiset(t)
    ensures |Filter(s, p)| <= |Filter(t, p)|
    decreases |s|
  {
    if s != [] {
      var x := s[0];
      assert x in multiset(t);
      var j :| 0 <= j < |t| && t[j] == x;
      MultisetRemoveAt(t, j);
      FilterRemoveAt(t, j, p);
      assert s == [x] + s[1..];
      FilterCountMonotone(s[1..], t[..j] + t[j + 1..], p);
    }
  }

  /** When `b`'s rows are among `t`'s, `t` is `b` plus some further rows `o`. */
  lemma {:induction false} MultisetComplement<T>(b: seq<T>, t: seq<T>) returns (o: seq<T>)
    requires multiset(b) <= multiset(t)
    ensures multiset(t) == multiset(b) + multiset(o)
    decreases |b|
  {
    if b == [] {
      o := t;
    } else {
      var x := b[0];
      assert x in multiset(t);
      var j :| 0 <= j < |t| && t[j] == x;
      MultisetRemoveAt(t, j);
      assert b == [x] + b[1..];
      o := MultisetComplement(b[1..], t[..j] + t[j + 1..]);
    }
  }
}
