/** `Array.prototype.filter` and what it keeps of the input's order, and `.single()` on a result. */
module Seqs {
  import opened Wrappers

  /** The elements of `s` that satisfy `p`, in the order they have in `s`. */
  function Filter<T(!new)>(s: seq<T>, p: T -> bool): (r: seq<T>)
    ensures |r| <= |s|
    ensures forall x :: x in r <==> x in s && p(x)
    ensures forall k :: 0 <= k < |r| ==> p(r[k])
    decreases |s|
  {
    if s == [] then [] else (if p(s[0]) then [s[0]] else []) + Filter(s[1..], p)
  }

  /** Every pair of elements, read left to right, is related by `le`. */
  ghost predicate Sorted<T>(s: seq<T>, le: (T, T) -> bool) {
    forall i, j :: 0 <= i < j < |s| ==> le(s[i], s[j])
  }

  lemma SortedTail<T>(s: seq<T>, le: (T, T) -> bool)
    requires s != [] && Sorted(s, le)
    ensures Sorted(s[1..], le)
    ensures forall y :: y in s[1..] ==> le(s[0], y)
  {
    forall i, j | 0 <= i < j < |s[1..]| ensures le(s[1..][i], s[1..][j]) {
      assert s[1..][i] == s[i + 1] && s[1..][j] == s[j + 1];
    }
  }

  lemma ConsSorted<T>(x: T, s: seq<T>, le: (T, T) -> bool)
    requires Sorted(s, le)
    requires forall y :: y in s ==> le(x, y)
    ensures Sorted([x] + s, le)
  {
    var r := [x] + s;
    forall i, j | 0 <= i < j < |r| ensures le(r[i], r[j]) {
      assert r[j] == s[j - 1];
      if i > 0 {
        assert r[i] == s[i - 1];
      }
    }
  }

  /** Filtering keeps the relative order of what it keeps: whatever pairwise order `s` has,
      the filtered sequence has it too. */
  lemma {:induction false} FilterKeepsOrder<T(!new)>(s: seq<T>, p: T -> bool, le: (T, T) -> bool)
    requires Sorted(s, le)
    ensures Sorted(Filter(s, p), le)
    decreases |s|
  {
    if s != [] {
      SortedTail(s, le);
      FilterKeepsOrder(s[1..], p, le);
      var tail := Filter(s[1..], p);
      if p(s[0]) {
        assert Filter(s, p) == [s[0]] + tail;
        ConsSorted(s[0], tail, le);
      } else {
        assert Filter(s, p) == tail;
      }
    }
  }

  /** Filtering a concatenation filters each part. */
  lemma {:induction false} FilterAppend<T(!new)>(a: seq<T>, b: seq<T>, p: T -> bool)
    ensures Filter(a + b, p) == Filter(a, p) + Filter(b, p)
    decreases |a|
  {
    if a != [] {
      assert (a + b)[1..] == a[1..] + b;
      FilterAppend(a[1..], b, p);
    } else {
      assert a + b == b;
    }
  }

  /** Nothing satisfies `p`: the filter keeps nothing. */
  lemma {:induction false} FilterNone<T(!new)>(s: seq<T>, p: T -> bool)
    requires forall x :: x in s ==> !p(x)
    ensures Filter(s, p) == []
    decreases |s|
  {
    if s != [] {
      assert s[0] in s;
      assert forall x :: x in s[1..] ==> x in s;
      FilterNone(s[1..], p);
    }
  }

  /** Position `j` holds the only element of `s` that satisfies `p`. */
  ghost predicate OnlyMatch<T>(s: seq<T>, p: T -> bool, j: int) {
    0 <= j < |s| && p(s[j]) && forall i :: 0 <= i < |s| && i != j ==> !p(s[i])
  }

  /** With a single matching position, the filter keeps that element alone. */
  lemma {:induction false} FilterOnlyMatch<T(!new)>(s: seq<T>, p: T -> bool, j: int)
    requires OnlyMatch(s, p, j)
    ensures Filter(s, p) == [s[j]]
    decreases |s|
  {
    if j == 0 {
      forall x | x in s[1..] ensures !p(x) {
        var i :| 0 <= i < |s[1..]| && s[1..][i] == x;
        assert s[i + 1] == x;
      }
      FilterNone(s[1..], p);
    } else {
      assert !p(s[0]);
      forall i | 0 <= i < |s[1..]| && i != j - 1 ensures !p(s[1..][i]) {
        assert s[1..][i] == s[i + 1];
      }
      FilterOnlyMatch(s[1..], p, j - 1);
    }
  }

  /** A filter that keeps exactly one element comes from a single matching position. */
  lemma {:induction false} SingleFilterHasOnlyMatch<T(!new)>(s: seq<T>, p: T -> bool)
    requires |Filter(s, p)| == 1
    ensures exists j :: OnlyMatch(s, p, j)
    decreases |s|
  {
    var tail := Filter(s[1..], p);
    if p(s[0]) {
      assert Filter(s, p) == [s[0]] + tail;
      forall i | 0 <= i < |s| && i != 0 ensures !p(s[i]) {
        assert s[i] == s[1..][i - 1];
        assert s[i] !in tail;
      }
      assert OnlyMatch(s, p, 0);
    } else {
      assert Filter(s, p) == tail;
      SingleFilterHasOnlyMatch(s[1..], p);
      var j :| OnlyMatch(s[1..], p, j);
      forall i | 0 <= i < |s| && i != j + 1 ensures !p(s[i]) {
        if i > 0 {
          assert s[i] == s[1..][i - 1];
        }
      }
      assert OnlyMatch(s, p, j + 1);
    }
  }

  /** `.single()`: the one row when there is exactly one, otherwise an error, read as missing. */
  function Single<T>(rows: seq<T>): (r: Option<T>)
    ensures r.Some? <==> |rows| == 1
    ensures r.Some? ==> r.value == rows[0]
  {
    if |rows| == 1 then Some(rows[0]) else None
  }
}
