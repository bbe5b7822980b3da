/**
 * `ORDER BY` on keys other than the id: a stable insertion sort by a
 * comparison, proved to order its output and to keep exactly its input.
 * Rows with equal keys keep their table order, one of the orders the
 * database may return.
 */
module Sorting {

  /** Every pair is comparable and the comparison is transitive. */
  ghost predicate TotalPreorder<T(!new)>(le: (T, T) -> bool)
  {
    (forall a, b :: le(a, b) || le(b, a))
    && (forall a, b, c :: le(a, b) && le(b, c) ==> le(a, c))
  }

  predicate Sorted<T>(s: seq<T>, le: (T, T) -> bool)
  {
    forall i, j :: 0 <= i < j < |s| ==> le(s[i], s[j])
  }

  /** Places `x` before the first element it is not above. */
  function InsertBy<T>(x: T, s: seq<T>, le: (T, T) -> bool): (r: seq<T>)
    ensures |r| == |s| + 1
  {
    if s == [] then [x]
    else if le(x, s[0]) then [x] + s
    else [s[0]] + InsertBy(x, s[1..], le)
  }

  /** The rows ordered by `le`. */
  function SortBy<T>(s: seq<T>, le: (T, T) -> bool): (r: seq<T>)
    ensures |r| == |s|
  {
    if s == [] then [] else InsertBy(s[0], SortBy(s[1..], le), le)
  }

  lemma {:induction false} InsertByPermutes<T>(x: T, s: seq<T>, le: (T, T) -> bool)
    ensures multiset(InsertBy(x, s, le)) == multiset(s) + multiset{x}
  {
    if s != [] && !le(x, s[0]) {
      InsertByPermutes(x, s[1..], le);
      assert s == [s[0]] + s[1..];
    }
  }

  /** Sorting keeps every row, as many times as it occurs. */
  lemma {:induction false} SortByPermutes<T>(s: seq<T>, le: (T, T) -> bool)
    ensures multiset(SortBy(s, le)) == multiset(s)
  {
    if s != [] {
      SortByPermutes(s[1..], le);
      InsertByPermutes(s[0], SortBy(s[1..], le), le);
      assert s == [s[0]] + s[1..];
    }
  }

  lemma {:induction false} InsertBySorted<T(!new)>(x: T, s: seq<T>, le: (T, T) -> bool)
    requires TotalPreorder(le) && Sorted(s, le)
    ensures Sorted(InsertBy(x, s, le), le)
  {
    if s != [] && !le(x, s[0]) {
      InsertBySorted(x, s[1..], le);
      assert le(s[0], x);
      assert forall k :: 0 <= k < |s[1..]| ==> le(s[0], s[1..][k]) by {
        forall k | 0 <= k < |s[1..]|
          ensures le(s[0], s[1..][k])
        {
          assert s[1..][k] == s[k + 1];
        }
      }
      BelowInserted(s[0], x, s[1..], le);
      ConsSorted(s[0], InsertBy(x, s[1..], le), le);
    } else if s != [] {
      BelowSorted(x, s, le);
      ConsSorted(x, s, le);
    }
  }

  /** A lower bound of `x` and of every element of `s` bounds every element of `InsertBy(x, s, le)`. */
  lemma BelowInserted<T>(y: T, x: T, s: seq<T>, le: (T, T) -> bool)
    requires le(y, x) && forall k :: 0 <= k < |s| ==> le(y, s[k])
    ensures forall k :: 0 <= k < |InsertBy(x, s, le)| ==> le(y, InsertBy(x, s, le)[k])
  {
    var r := InsertBy(x, s, le);
    InsertByPermutes(x, s, le);
    forall k | 0 <= k < |r|
      ensures le(y, r[k])
    {
      assert r[k] in multiset(r);
      if r[k] != x {
        assert r[k] in multiset(s);
        var j :| 0 <= j < |s| && s[j] == r[k];
      }
    }
  }

  /** An element below the head of a sorted sequence is below all of it. */
  lemma BelowSorted<T(!new)>(x: T, s: seq<T>, le: (T, T) -> bool)
    requires TotalPreorder(le) && Sorted(s, le) && s != [] && le(x, s[0])
    ensures forall k :: 0 <= k < |s| ==> le(x, s[k])
  {
    forall k | 0 < k < |s|
      ensures le(x, s[k])
    {
      assert le(s[0], s[k]);
    }
  }

  /** A sorted sequence stays sorted under a new head below all of it. */
  lemma ConsSorted<T>(a: T, r: seq<T>, le: (T, T) -> bool)
    requires Sorted(r, le) && forall k :: 0 <= k < |r| ==> le(a, r[k])
    ensures Sorted([a] + r, le)
  {
    forall i, j | 0 <= i < j < |[a] + r|
      ensures le(([a] + r)[i], ([a] + r)[j])
    {
      assert ([a] + r)[j] == r[j - 1];
      if i > 0 {
        assert ([a] + r)[i] == r[i - 1];
      }
    }
  }

  /** A sort by a total preorder yields its rows in order. */
  lemma {:induction false} SortBySorted<T(!new)>(s: seq<T>, le: (T, T) -> bool)
    requires TotalPreorder(le)
    ensures Sorted(SortBy(s, le), le)
  {
    if s != [] {
      SortBySorted(s[1..], le);
      InsertBySorted(s[0], SortBy(s[1..], le), le);
    }
  }
}
