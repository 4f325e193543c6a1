/** Group-and-count reductions: the part of pandas' Series.value_counts the
    dashboard relies on, and the top-N cut with a residual "Others" row.

    value_counts sorts its groups by decreasing count, but fixes no order
    among groups of equal count. The model therefore never computes an
    order itself: each aggregation takes the order of the groups as a
    parameter and requires only what value_counts guarantees about it
    (IsValueCountsOrder). Every property proved below holds for all such
    orders. */
module Counting {
  import opened Wrappers

  /** Number of occurrences of x in s. */
  function Count<T(==)>(s: seq<T>, x: T): nat {
    if s == [] then 0 else (if s[0] == x then 1 else 0) + Count(s[1..], x)
  }

  predicate Distinct<T(==)>(s: seq<T>) {
    forall i, j :: 0 <= i < j < |s| ==> s[i] != s[j]
  }

  /** What value_counts promises of the labels it returns for the column
      col: each value of col exactly once, and no value absent from col,
      by non-increasing count. */
  predicate IsValueCountsOrder<T(==)>(col: seq<T>, order: seq<T>) {
    && Distinct(order)
    && (forall i :: 0 <= i < |col| ==> col[i] in order)
    && (forall i :: 0 <= i < |order| ==> order[i] in col)
    && (forall i, j :: 0 <= i < j < |order| ==> Count(col, order[i]) >= Count(col, order[j]))
  }

  /** The (label, count) rows of value_counts for col, in the given order. */
  function CountsInOrder<T(==)>(col: seq<T>, order: seq<T>): (r: seq<(T, nat)>)
    ensures |r| == |order|
    ensures forall i :: 0 <= i < |order| ==> r[i] == (order[i], Count(col, order[i]))
  {
    if order == [] then [] else [(order[0], Count(col, order[0]))] + CountsInOrder(col, order[1..])
  }

  /** Counting along a concatenation of label sequences. */
  lemma CountsInOrderAppend<T>(col: seq<T>, a: seq<T>, b: seq<T>)
    ensures CountsInOrder(col, a + b) == CountsInOrder(col, a) + CountsInOrder(col, b)
  {
  }

  /** Total of the count column. */
  function SumCounts<T>(rows: seq<(T, nat)>): nat {
    if rows == [] then 0 else rows[0].1 + SumCounts(rows[1..])
  }

  /** Counts along the rows never increase. */
  predicate NonIncreasing<T>(rows: seq<(T, nat)>) {
    forall i, j :: 0 <= i < j < |rows| ==> rows[i].1 >= rows[j].1
  }

  /** Number of elements of col that occur in labels. */
  function CountAmong<T(==)>(col: seq<T>, labels: seq<T>): nat {
    if col == [] then 0 else (if col[0] in labels then 1 else 0) + CountAmong(col[1..], labels)
  }

  // ------------------------------------------------------------- lemmas

  lemma {:induction false} SumCountsAppend<T>(a: seq<(T, nat)>, b: seq<(T, nat)>)
    ensures SumCounts(a + b) == SumCounts(a) + SumCounts(b)
  {
    if a != [] {
      SumCountsAppend(a[1..], b);
      assert (a + b)[1..] == a[1..] + b;
    } else {
      assert a + b == b;
    }
  }

  lemma {:induction false} CountAppend<T>(a: seq<T>, b: seq<T>, x: T)
    ensures Count(a + b, x) == Count(a, x) + Count(b, x)
  {
    if a == [] {
      assert a + b == b;
    } else {
      assert (a + b)[1..] == a[1..] + b;
      CountAppend(a[1..], b, x);
    }
  }

  lemma {:induction false} CountDistinct<T>(s: seq<T>, x: T)
    requires Distinct(s)
    ensures Count(s, x) == if x in s then 1 else 0
  {
    if s != [] {
      CountDistinct(s[1..], x);
      assert x in s <==> s[0] == x || x in s[1..];
    }
  }

  /** Peeling the first element of the column off every count of a row set. */
  lemma {:induction false} CountsPeel<T>(col: seq<T>, labels: seq<T>)
    requires col != []
    ensures SumCounts(CountsInOrder(col, labels))
         == Count(labels, col[0]) + SumCounts(CountsInOrder(col[1..], labels))
  {
    if labels != [] {
      CountsPeel(col, labels[1..]);
    }
  }

  /** Summing the counts of distinct labels counts each element of the
      column that carries one of those labels exactly once. */
  lemma {:induction false} SumOfCounts<T>(col: seq<T>, labels: seq<T>)
    requires Distinct(labels)
    ensures SumCounts(CountsInOrder(col, labels)) == CountAmong(col, labels)
  {
    if col == [] {
      EmptyCounts(labels);
    } else {
      CountsPeel(col, labels);
      CountDistinct(labels, col[0]);
      SumOfCounts(col[1..], labels);
    }
  }

  lemma {:induction false} EmptyCounts<T>(labels: seq<T>)
    ensures SumCounts(CountsInOrder([], labels)) == 0
  {
    if labels != [] { EmptyCounts(labels[1..]); }
  }

  lemma {:induction false} CountAmongAll<T>(col: seq<T>, labels: seq<T>)
    requires forall i :: 0 <= i < |col| ==> col[i] in labels
    ensures CountAmong(col, labels) == |col|
  {
    if col != [] { CountAmongAll(col[1..], labels); }
  }

  /** Count conservation: the rows of value_counts add up to the length of
      the column, whatever order the equal counts come in. */
  lemma ValueCountsTotal<T>(col: seq<T>, order: seq<T>)
    requires IsValueCountsOrder(col, order)
    ensures SumCounts(CountsInOrder(col, order)) == |col|
  {
    SumOfCounts(col, order);
    CountAmongAll(col, order);
  }

  /** The rows of value_counts are in non-increasing order of count, and
      every count is positive. */
  lemma ValueCountsSorted<T>(col: seq<T>, order: seq<T>)
    requires IsValueCountsOrder(col, order)
    ensures NonIncreasing(CountsInOrder(col, order))
    ensures forall i :: 0 <= i < |order| ==> CountsInOrder(col, order)[i].1 > 0
  {
    forall i | 0 <= i < |order| ensures Count(col, order[i]) > 0 {
      CountPositive(col, order[i]);
    }
  }

  lemma {:induction false} CountPositive<T>(s: seq<T>, x: T)
    requires x in s
    ensures Count(s, x) > 0
  {
    if s[0] != x { CountPositive(s[1..], x); }
  }

  /** x is in s exactly when it is counted there. */
  lemma CountedIffPresent<T>(s: seq<T>, x: T)
    ensures x in s <==> Count(s, x) > 0
  {
    if x in s { CountPositive(s, x); } else { CountAbsent(s, x); }
  }

  lemma {:induction false} CountAbsent<T>(s: seq<T>, x: T)
    requires x !in s
    ensures Count(s, x) == 0
  {
    if s != [] { CountAbsent(s[1..], x); }
  }

  /** A duplicate-free sequence drawn from a finite set is no longer than the set. */
  lemma {:induction false} DistinctWithin<T>(s: seq<T>, universe: set<T>)
    requires Distinct(s)
    requires forall i :: 0 <= i < |s| ==> s[i] in universe
    ensures |s| <= |universe|
  {
    if s != [] {
      assert s[0] !in s[1..];
      forall i | 0 <= i < |s| - 1 ensures s[1..][i] in universe - {s[0]} {
        assert s[1..][i] == s[i + 1];
      }
      DistinctWithin(s[1..], universe - {s[0]});
    }
  }

  // ---------------------------------------------------------------- filter

  /** The rows of s that satisfy keep, in their original order (boolean
      indexing of a frame). */
  function Filter<T>(s: seq<T>, keep: T -> bool): (r: seq<T>)
    ensures |r| <= |s|
    ensures forall i :: 0 <= i < |r| ==> r[i] in s && keep(r[i])
    ensures forall i :: 0 <= i < |s| && keep(s[i]) ==> s[i] in r
  {
    if s == [] then []
    else (if keep(s[0]) then [s[0]] else []) + Filter(s[1..], keep)
  }

  /** Filtering keeps relative order: it distributes over concatenation. */
  lemma {:induction false} FilterAppend<T>(a: seq<T>, b: seq<T>, keep: T -> bool)
    ensures Filter(a + b, keep) == Filter(a, keep) + Filter(b, keep)
  {
    if a == [] {
      assert a + b == b;
    } else {
      assert (a + b)[1..] == a[1..] + b;
      FilterAppend(a[1..], b, keep);
    }
  }

  /** Filtering keeps every copy of a kept value and no copy of another. */
  lemma {:induction false} FilterCount<T>(s: seq<T>, keep: T -> bool, x: T)
    ensures Count(Filter(s, keep), x) == if keep(x) then Count(s, x) else 0
  {
    if s != [] {
      FilterCount(s[1..], keep, x);
      CountAppend(if keep(s[0]) then [s[0]] else [], Filter(s[1..], keep), x);
    }
  }

  // --------------------------------------------------------------- notna

  /** The values of a column that are not missing, in column order: what
      notna() keeps and what value_counts() and quantile() see. */
  function Present<T>(col: seq<Option<T>>): (r: seq<T>)
    ensures |r| <= |col|
    ensures forall i :: 0 <= i < |r| ==> Some(r[i]) in col
    ensures forall i :: 0 <= i < |col| && col[i].Some? ==> col[i].value in r
  {
    if col == [] then []
    else
      var rest := Present(col[1..]);
      assert forall i :: 1 <= i < |col| ==> col[i] == col[1..][i - 1];
      match col[0]
      case None => rest
      case Some(x) => [x] + rest
  }

  /** Each value is kept as often as it occurs in the column. */
  lemma {:induction false} PresentCount<T>(col: seq<Option<T>>, x: T)
    ensures Count(Present(col), x) == Count(col, Some(x))
  {
    if col != [] {
      PresentCount(col[1..], x);
    }
  }

  /** Only the missing values are dropped. */
  lemma {:induction false} PresentLength<T>(col: seq<Option<T>>)
    ensures |Present(col)| + Count(col, None) == |col|
  {
    if col != [] {
      PresentLength(col[1..]);
    }
  }

  /** Dropping the missing values keeps the order of the rest. */
  lemma {:induction false} PresentAppend<T>(a: seq<Option<T>>, b: seq<Option<T>>)
    ensures Present(a + b) == Present(a) + Present(b)
  {
    if a == [] {
      assert a + b == b;
    } else {
      assert (a + b)[0] == a[0] && (a + b)[1..] == a[1..] + b;
      PresentAppend(a[1..], b);
    }
  }

  // ----------------------------------------------------------------- top-N

  /** The first n rows, followed, when rows were cut, by one residual row
      labelled `others` that carries the sum of the cut counts. */
  function TopN<T>(rows: seq<(T, nat)>, n: nat, others: T): (r: seq<(T, nat)>)
    ensures |rows| > n ==> |r| == n + 1 && r[..n] == rows[..n] && r[n] == (others, SumCounts(rows[n..]))
    ensures |rows| <= n ==> r == rows
    ensures SumCounts(r) == SumCounts(rows)
  {
    if |rows| > n then
      var r := rows[..n] + [(others, SumCounts(rows[n..]))];
      SumCountsAppend(rows[..n], [(others, SumCounts(rows[n..]))]);
      SumCountsAppend(rows[..n], rows[n..]);
      assert rows[..n] + rows[n..] == rows;
      r
    else rows
  }
}
